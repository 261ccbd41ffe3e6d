/**
The one-pass header evaluator, and its agreement with the reference judgement.
*/
module HeaderEvaluation {
  import opened Difficulty
  import opened HeaderChain
  import opened Machine
  import opened Wrappers

  // ----- putting the candidate in height order

  function InsertByHeight(h: Header, sorted: seq<Header>): seq<Header> {
    if sorted == [] || h.height <= sorted[0].height then [h] + sorted
    else [sorted[0]] + InsertByHeight(h, sorted[1..])
  }

  /** `sort_by_key(height)`: stable, so equal heights keep their order. */
  function ByHeight(headers: seq<Header>): seq<Header> {
    if headers == [] then [] else InsertByHeight(headers[0], ByHeight(headers[1..]))
  }

  ghost predicate Ascending(s: seq<Header>) {
    forall i, j :: 0 <= i < j < |s| ==> s[i].height <= s[j].height
  }

  lemma {:induction false} InsertKeeps(h: Header, sorted: seq<Header>)
    ensures multiset(InsertByHeight(h, sorted)) == multiset(sorted) + multiset{h}
  {
    if sorted != [] && h.height > sorted[0].height {
      InsertKeeps(h, sorted[1..]);
      assert sorted == [sorted[0]] + sorted[1..];
    }
  }

  lemma {:induction false} InsertAscends(h: Header, sorted: seq<Header>)
    requires Ascending(sorted)
    ensures Ascending(InsertByHeight(h, sorted))
    ensures sorted != [] ==>
      InsertByHeight(h, sorted)[0].height == Min(h.height, sorted[0].height)
  {
    if sorted != [] && h.height > sorted[0].height {
      InsertAscends(h, sorted[1..]);
    }
  }

  /** The order is ascending and nothing is lost or added. */
  lemma {:induction false} ByHeightSorts(headers: seq<Header>)
    ensures multiset(ByHeight(headers)) == multiset(headers)
    ensures Ascending(ByHeight(headers))
  {
    if headers != [] {
      ByHeightSorts(headers[1..]);
      InsertKeeps(headers[0], ByHeight(headers[1..]));
      InsertAscends(headers[0], ByHeight(headers[1..]));
      assert headers == [headers[0]] + headers[1..];
    }
  }

  lemma ByHeightNonEmpty(headers: seq<Header>)
    requires headers != []
    ensures ByHeight(headers) != []
  {
  }

  // ----- sliding windows

  lemma LastNPush<T>(s: seq<T>, x: T, n: nat, m: nat)
    requires 0 < n <= m
    ensures LastN(LastN(s, m) + [x], n) == LastN(s + [x], n)
  {
  }

  lemma TimesOfSuffix(s: seq<Header>, n: nat)
    ensures Times(LastN(s, n)) == LastN(Times(s), n) && Diffs(LastN(s, n)) == LastN(Diffs(s), n)
  {
  }

  lemma TimesExtend(s: seq<Header>, h: Header)
    ensures Times(s + [h]) == Times(s) + [h.timestamp]
    ensures Diffs(s + [h]) == Diffs(s) + [h.difficulty]
  {
  }

  lemma TimesOfPush(s: seq<Header>, h: Header, n: nat, m: nat)
    requires 0 < n <= m
    ensures LastN(Times(LastN(s, m)) + [h.timestamp], n) == Times(LastN(s + [h], n))
    ensures LastN(Diffs(LastN(s, m)) + [h.difficulty], n) == Diffs(LastN(s + [h], n))
  {
    hide Times, Diffs, LastN;
    TimesOfSuffix(s, m);
    TimesOfSuffix(s + [h], n);
    TimesExtend(s, h);
    LastNPush(Times(s), h.timestamp, n, m);
    LastNPush(Diffs(s), h.difficulty, n, m);
  }

  /** `drain(0..excess)` when the window has grown past n. */
  method Drain<T>(s: seq<T>, n: nat) returns (r: seq<T>)
    ensures r == LastN(s, n)
  {
    r := s;
    if |s| > n {
      var excess := |s| - n;
      r := s[excess..];
    }
  }

  /** The windows before header i: 121 times; 121 difficulties as loaded, 120 once drained. */
  ghost predicate Windows(ancestors: seq<Header>, m: nat, ts: seq<u64>, ds: seq<u256>) {
    && (m == WINDOW || m == HISTORY)
    && ts == Times(LastN(ancestors, HISTORY))
    && ds == Diffs(LastN(ancestors, m))
  }

  /** The sliding windows give the difficulty that reloading 121 ancestors gives. */
  lemma WindowsExpect(ancestors: seq<Header>, m: nat, ts: seq<u64>, ds: seq<u256>)
    requires Windows(ancestors, m, ts, ds)
    ensures NextDifficulty(ts, ds) == Expected(ancestors)
    ensures MedianTime(ts) == MedianTime(Times(ancestors))
  {
    hide NextDifficulty, Times, Diffs;
    MedianOfSuffix(ancestors);
    if |ancestors| >= HISTORY && m == WINDOW {
      var full := Diffs(LastN(ancestors, HISTORY));
      assert full == [full[0]] + ds;
      assert ts == [] + ts;
      OnlyTheWindowMatters(ts, ds, [], [full[0]]);
    }
  }

  lemma MedianOfSuffix(ancestors: seq<Header>)
    ensures MedianTime(Times(LastN(ancestors, HISTORY))) == MedianTime(Times(ancestors))
  {
    hide Sort;
    assert LastN(Times(LastN(ancestors, HISTORY)), MTP_WINDOW) == LastN(Times(ancestors), MTP_WINDOW);
  }

  lemma WindowsPush(ancestors: seq<Header>, m: nat, ts: seq<u64>, ds: seq<u256>, h: Header)
    requires Windows(ancestors, m, ts, ds)
    ensures Windows(ancestors + [h], WINDOW, LastN(ts + [h.timestamp], HISTORY), LastN(ds + [h.difficulty], WINDOW))
  {
    TimesOfPush(ancestors, h, HISTORY, HISTORY);
    TimesOfPush(ancestors, h, WINDOW, m);
  }

  lemma StoredHeader(rules: Rules, db: Db, chain: seq<Header>, h: nat)
    requires Canonical(rules, db, chain) && h < |chain|
    ensures HeaderAt(db, h) == Some(chain[h])
  {
  }

  /** Reading the last n stored headers below `height`, skipping what cannot be read. */
  method LoadWindow(rules: Rules, db: Db, height: nat, n: nat, ghost chain: seq<Header>)
    returns (ts: seq<u64>, ds: seq<u256>)
    ensures |ts| == |ds|
    ensures Canonical(rules, db, chain) && height <= |chain| ==>
              ts == Times(LastN(chain[..height], n)) && ds == Diffs(LastN(chain[..height], n))
  {
    hide Times, Diffs, Canonical, HeaderAt;
    ts, ds := [], [];
    var start := if height >= n then height - n else 0;
    ghost var good := Canonical(rules, db, chain) && height <= |chain|;
    ghost var window: seq<Header> := [];
    for h := start to height
      invariant |ts| == |ds|
      invariant good ==> window == chain[start..h] && ts == Times(window) && ds == Diffs(window)
    {
      var stored := HeaderAt(db, h);
      if good {
        StoredHeader(rules, db, chain, h);
        TimesExtend(window, chain[h]);
        window := window + [chain[h]];
      }
      if stored.Some? {
        ts := ts + [stored.value.timestamp];
        ds := ds + [stored.value.difficulty];
      }
    }
    assert good ==> LastN(chain[..height], n) == chain[start..height];
  }

  // ----- the walk

  ghost predicate LinkedAt(rules: Rules, headers: seq<Header>, i: nat)
    requires 0 < i < |headers|
  {
    headers[i].height == headers[i - 1].height + 1 && headers[i].parentHash == HashOf(rules, headers[i - 1])
  }

  ghost predicate Setting(rules: Rules, chain: seq<Header>, headers: seq<Header>) {
    ChainOk(rules, chain) && Hashes32(rules) && NoCollision(rules, headers, chain) && ParentCanonical(rules, headers, chain)
  }

  ghost predicate DeepUpTo(rules: Rules, chain: seq<Header>, finalized: nat, headers: seq<Header>, i: nat)
    requires i <= |headers|
  {
    exists j :: 0 <= j < i &&
      headers[j].height < |chain| && headers[j].height <= finalized && !Matched(rules, chain, headers[j])
  }

  /** The first i headers judged: k of them stored, the rest valid. */
  ghost predicate Walked(rules: Rules, chain: seq<Header>, now: nat, headers: seq<Header>, i: nat, k: nat)
    requires headers != [] && headers[0].height <= |chain| && i <= |headers|
  {
    && k <= i
    && (forall j :: 0 < j < i ==> LinkedAt(rules, headers, j))
    && (forall j :: 0 <= j < i ==> (Matched(rules, chain, headers[j]) <==> j < k))
    && (forall j :: k <= j < i ==> Valid(rules, now, Ancestors(chain, headers, j), headers[j]))
  }

  lemma {:induction false} LinkedHeights(rules: Rules, headers: seq<Header>, i: nat)
    requires i < |headers| && forall j :: 0 < j <= i ==> LinkedAt(rules, headers, j)
    ensures headers[i].height == headers[0].height + i
  {
    if i > 0 {
      LinkedHeights(rules, headers, i - 1);
      assert LinkedAt(rules, headers, i);
    }
  }

  /** A stored header's predecessor in the candidate is stored too. */
  lemma MatchedBackward(rules: Rules, chain: seq<Header>, headers: seq<Header>, i: nat)
    requires Setting(rules, chain, headers)
    requires 0 < i < |headers| && LinkedAt(rules, headers, i) && Matched(rules, chain, headers[i])
    ensures Matched(rules, chain, headers[i - 1])
  {
    var h := headers[i].height;
    assert Pack(headers[i]) == Pack(chain[h]);
    assert |HashOf(rules, headers[i - 1])| == 32 && |HashOf(rules, chain[h - 1])| == 32;
  }

  /** A stored header where nothing diverged yet extends the common part. */
  lemma WalkMatched(rules: Rules, chain: seq<Header>, now: nat, headers: seq<Header>, i: nat, k: nat)
    requires Setting(rules, chain, headers) && i < |headers|
    requires Walked(rules, chain, now, headers, i, k)
    requires i > 0 ==> LinkedAt(rules, headers, i)
    requires Matched(rules, chain, headers[i])
    ensures k == i && Walked(rules, chain, now, headers, i + 1, i + 1)
    ensures headers[i].height == headers[0].height + i < |chain|
  {
    hide Valid, Matched, NoCollision, Hashes32;
    if i > 0 { MatchedBackward(rules, chain, headers, i); }
    LinkedHeights(rules, headers, i);
    HeightInChain(rules, chain, headers[i]);
  }

  lemma HeightInChain(rules: Rules, chain: seq<Header>, h: Header)
    requires Matched(rules, chain, h)
    ensures h.height < |chain|
  {
  }

  lemma WalkValid(rules: Rules, chain: seq<Header>, now: nat, headers: seq<Header>, i: nat, k: nat)
    requires headers != [] && headers[0].height <= |chain| && i < |headers|
    requires Walked(rules, chain, now, headers, i, k)
    requires i > 0 ==> LinkedAt(rules, headers, i)
    requires !Matched(rules, chain, headers[i])
    requires Valid(rules, now, Ancestors(chain, headers, i), headers[i])
    ensures Walked(rules, chain, now, headers, i + 1, k)
  {
    hide Valid, Matched;
  }

  lemma {:induction false} CommonCountUnique(rules: Rules, chain: seq<Header>, headers: seq<Header>, k: nat)
    requires k <= |headers|
    requires forall j :: 0 <= j < |headers| ==> (Matched(rules, chain, headers[j]) <==> j < k)
    ensures CommonCount(rules, chain, headers) == k
  {
    hide Matched;
    if k > 0 {
      var rest := headers[1..];
      forall j | 0 <= j < |rest| ensures Matched(rules, chain, rest[j]) <==> j < k - 1 {
        assert rest[j] == headers[j + 1];
      }
      CommonCountUnique(rules, chain, rest, k - 1);
    }
  }

  /** A completed walk ends in the comparison the reference makes. */
  lemma WalkEnds(rules: Rules, chain: seq<Header>, finalized: nat, now: nat, headers: seq<Header>, k: nat)
    requires Setting(rules, chain, headers) && Walked(rules, chain, now, headers, |headers|, k)
    requires headers[0].height - 1 + k < |chain|
    ensures
      var fork := headers[0].height - 1 + k;
      Judgement(rules, chain, finalized, now, headers) ==
      Compare(DeepUpTo(rules, chain, finalized, headers, |headers|), fork,
              chain[fork].weight + Work(headers[k..]), chain[fork].weight, chain[|chain| - 1].weight)
  {
    hide Valid, Matched, Compare, Work, NoCollision, Hashes32, ChainOk;
    CommonCountUnique(rules, chain, headers, k);
    assert Linked(rules, headers) by {
      forall i | 0 < i < |headers|
        ensures headers[i].height == headers[i - 1].height + 1 && headers[i].parentHash == HashOf(rules, headers[i - 1])
      {
        assert LinkedAt(rules, headers, i);
      }
    }
  }

  lemma BrokenLink(rules: Rules, chain: seq<Header>, finalized: nat, now: nat, headers: seq<Header>, i: nat)
    requires ParentCanonical(rules, headers, chain) && 0 < i < |headers| && !LinkedAt(rules, headers, i)
    ensures Judgement(rules, chain, finalized, now, headers) == Verdict(2, 0)
  {
    hide AllSound;
  }

  lemma UnsoundHeader(rules: Rules, chain: seq<Header>, finalized: nat, now: nat, headers: seq<Header>, i: nat)
    requires ParentCanonical(rules, headers, chain) && i < |headers|
    requires !Matched(rules, chain, headers[i]) && !Valid(rules, now, Ancestors(chain, headers, i), headers[i])
    ensures Judgement(rules, chain, finalized, now, headers) == Verdict(2, 0)
  {
    hide Linked, Matched, Valid;
  }

  lemma AncestorsStep(chain: seq<Header>, headers: seq<Header>, i: nat)
    requires headers != [] && headers[0].height <= |chain| && i < |headers|
    ensures Ancestors(chain, headers, i + 1) == Ancestors(chain, headers, i) + [headers[i]]
    ensures Ancestors(chain, headers, 0) == chain[..headers[0].height]
  {
  }

  lemma WorkStep(headers: seq<Header>, k: nat, i: nat)
    requires k <= i < |headers|
    ensures Work(headers[k..i + 1]) == Work(headers[k..i]) + headers[i].difficulty
  {
    assert headers[k..i + 1][..i - k] == headers[k..i];
  }

  lemma StoredHash(rules: Rules, db: Db, chain: seq<Header>, h: Header)
    requires Canonical(rules, db, chain)
    ensures h.height in db.hashAt <==> h.height < |chain|
    ensures h.height in db.hashAt && db.hashAt[h.height] == HashOf(rules, h) <==> Matched(rules, chain, h)
    ensures Matched(rules, chain, h) ==> ReadHeader(db, HashOf(rules, h)) == Some(chain[h.height])
  {
  }

  /** Reloading the window from candidate and database when it is short. */
  method ReloadWindow(db: Db, headers: seq<Header>, height: nat) returns (ts: seq<u64>, ds: seq<u256>)
    requires headers != [] && height >= HISTORY
  {
    ts, ds := [], [];
    var start := height - HISTORY;
    for h := start to height {
      var found: Option<Header> := None;
      if h >= headers[0].height && h - headers[0].height < |headers| {
        found := Some(headers[h - headers[0].height]);
      }
      if found.None? {
        found := HeaderAt(db, h);
      }
      if found.Some? {
        ts := ts + [found.value.timestamp];
        if h > start {
          ds := ds + [found.value.difficulty];
        }
      }
    }
  }

  /** The evaluator's variables before header i. */
  datatype Walk = Walk(ts: seq<u64>, ds: seq<u256>, weight: nat, weightAtFork: nat, forkPoint: nat, deep: bool)

  /** What they mean, with k stored headers so far and windows of m difficulties. */
  ghost predicate Means(rules: Rules, chain: seq<Header>, finalized: nat, now: nat, headers: seq<Header>,
                        i: nat, k: nat, m: nat, w: Walk)
  {
    && ParentCanonical(rules, headers, chain) && i <= |headers|
    && Walked(rules, chain, now, headers, i, k)
    && w.forkPoint == headers[0].height - 1 + k < |chain|
    && w.weightAtFork == chain[w.forkPoint].weight
    && w.weight == w.weightAtFork + Work(headers[k..i])
    && w.deep == DeepUpTo(rules, chain, finalized, headers, i)
    && Windows(Ancestors(chain, headers, i), m, w.ts, w.ds)
  }

  lemma MeansStart(rules: Rules, db: Db, chain: seq<Header>, now: nat, headers: seq<Header>, w: Walk)
    requires Canonical(rules, db, chain) && ParentCanonical(rules, headers, chain)
    requires Windows(chain[..headers[0].height], HISTORY, w.ts, w.ds)
    requires w.forkPoint == headers[0].height - 1 && !w.deep
    requires w.weight == w.weightAtFork == chain[headers[0].height - 1].weight
    ensures Means(rules, chain, db.finalized, now, headers, 0, 0, HISTORY, w)
  {
    hide Windows, Valid, Matched;
    AncestorsStep(chain, headers, 0);
    assert headers[0..0] == [];
  }

  lemma ParentStored(rules: Rules, db: Db, chain: seq<Header>, headers: seq<Header>)
    requires Canonical(rules, db, chain) && ParentCanonical(rules, headers, chain) && Hashes32(rules)
    ensures |headers[0].parentHash| == 32 && headers[0].parentHash in db.headers
    ensures db.headers[headers[0].parentHash] == Readable(chain[headers[0].height - 1])
  {
  }

  lemma EnoughHistory(chain: seq<Header>, height: nat, m: nat, ts: seq<u64>, ds: seq<u256>, ancestors: seq<Header>)
    requires Windows(ancestors, m, ts, ds) && |ancestors| == height
    ensures height >= HISTORY ==> |ts| == HISTORY
    ensures height > 0 ==> ts != []
  {
  }

  function PushWindows(w: Walk, h: Header): Walk {
    w.(ts := LastN(w.ts + [h.timestamp], HISTORY), ds := LastN(w.ds + [h.difficulty], WINDOW))
  }

  /** Pushing the header's time and difficulty, then draining what exceeds 121 and 120 entries. */
  method SlideWindows(w: Walk, h: Header) returns (slid: Walk)
    ensures slid == PushWindows(w, h)
  {
    var ts := Drain(w.ts + [h.timestamp], HISTORY);
    var ds := Drain(w.ds + [h.difficulty], WINDOW);
    slid := w.(ts := ts, ds := ds);
  }

  lemma MeansMatched(rules: Rules, db: Db, chain: seq<Header>, now: nat, headers: seq<Header>,
                     i: nat, k: nat, m: nat, w: Walk)
    requires Canonical(rules, db, chain) && Setting(rules, chain, headers) && i < |headers|
    requires Means(rules, chain, db.finalized, now, headers, i, k, m, w)
    requires i > 0 ==> LinkedAt(rules, headers, i)
    requires Matched(rules, chain, headers[i])
    ensures ReadHeader(db, HashOf(rules, headers[i])) == Some(chain[headers[i].height])
    ensures
      var weight := chain[headers[i].height].weight;
      Means(rules, chain, db.finalized, now, headers, i + 1, i + 1, WINDOW,
            PushWindows(w, headers[i]).(weight := weight, weightAtFork := weight, forkPoint := headers[i].height))
  {
    hide Windows, Valid, Matched, Canonical, Setting, Walked;
    WalkMatched(rules, chain, now, headers, i, k);
    StoredHash(rules, db, chain, headers[i]);
    AncestorsStep(chain, headers, i);
    WindowsPush(Ancestors(chain, headers, i), m, w.ts, w.ds, headers[i]);
    assert headers[i + 1..i + 1] == [];
  }

  lemma MeansUnmatched(rules: Rules, chain: seq<Header>, finalized: nat, now: nat, headers: seq<Header>,
                       i: nat, k: nat, m: nat, w: Walk)
    requires ParentCanonical(rules, headers, chain) && i < |headers|
    requires Means(rules, chain, finalized, now, headers, i, k, m, w)
    requires i > 0 ==> LinkedAt(rules, headers, i)
    requires !Matched(rules, chain, headers[i])
    requires Valid(rules, now, Ancestors(chain, headers, i), headers[i])
    ensures
      var deep := w.deep || (headers[i].height < |chain| && headers[i].height <= finalized);
      Means(rules, chain, finalized, now, headers, i + 1, k, WINDOW,
            PushWindows(w, headers[i]).(weight := w.weight + headers[i].difficulty, deep := deep))
  {
    hide Windows, Valid, Matched, Walked;
    WalkValid(rules, chain, now, headers, i, k);
    AncestorsStep(chain, headers, i);
    WindowsPush(Ancestors(chain, headers, i), m, w.ts, w.ds, headers[i]);
    KnownCount(rules, chain, now, headers, i, k);
    WorkStep(headers, k, i);
  }

  lemma KnownCount(rules: Rules, chain: seq<Header>, now: nat, headers: seq<Header>, i: nat, k: nat)
    requires headers != [] && headers[0].height <= |chain| && i <= |headers|
    requires Walked(rules, chain, now, headers, i, k)
    ensures k <= i
  {
  }

  /** The check of an unstored header against the windows is the reference check. */
  lemma CheckMeans(rules: Rules, chain: seq<Header>, finalized: nat, now: nat, headers: seq<Header>,
                   i: nat, k: nat, m: nat, w: Walk)
    requires Means(rules, chain, finalized, now, headers, i, k, m, w) && i < |headers|
    requires i > 0 ==> LinkedAt(rules, headers, i)
    ensures headers[i].height > 0 && w.ts != [] && (headers[i].height >= HISTORY ==> |w.ts| == HISTORY)
    ensures Passes(rules, now, headers[i], w.ts, w.ds) <==>
            Valid(rules, now, Ancestors(chain, headers, i), headers[i])
  {
    hide MedianTime, NextDifficulty, Expected;
    LinkedHeights(rules, headers, i);
    var ancestors := Ancestors(chain, headers, i);
    WindowsExpect(ancestors, m, w.ts, w.ds);
    EnoughHistory(chain, headers[i].height, m, w.ts, w.ds, ancestors);
  }

  /** The checks a header must pass when it is not stored. */
  ghost predicate Passes(rules: Rules, now: nat, h: Header, ts: seq<u64>, ds: seq<u256>) {
    && (ts != [] ==> h.difficulty == NextDifficulty(ts, ds))
    && rules.pow(HashOf(rules, h), h.nonce, h.difficulty, h.height)
    && InTime(h.timestamp, if h.height == 0 then 0 else MedianTime(ts), now)
  }

  method CheckUnstored(rules: Rules, now: nat, h: Header, ts: seq<u64>, ds: seq<u256>) returns (ok: bool)
    ensures ok == Passes(rules, now, h, ts, ds)
  {
    if ts != [] {
      var expected := CalculateNextDifficulty(ts, ds);
      if h.difficulty != expected {
        return false;
      }
    }
    if !rules.pow(HashOf(rules, h), h.nonce, h.difficulty, h.height) {
      return false;
    }
    var median := if h.height == 0 then 0 else MedianTime(ts);
    ok := InTime(h.timestamp, median, now);
  }

  /** Fork point, weight and windows from the database, or an early verdict. */
  method StartWalk(rules: Rules, db: Db, headers: seq<Header>, now: nat, ghost chain: seq<Header>)
    returns (w: Walk, early: Option<Verdict>)
    requires headers != [] && headers[0].height > 0
    ensures Canonical(rules, db, chain) && Setting(rules, chain, headers) ==>
              early.None? && Means(rules, chain, db.finalized, now, headers, 0, 0, HISTORY, w)
    ensures |headers[0].parentHash| != 32 || headers[0].parentHash !in db.headers ==> early == Some(Verdict(2, 0))
    ensures (|headers[0].parentHash| == 32 && headers[0].parentHash in db.headers &&
             !db.headers[headers[0].parentHash].Readable?) ==> early == Some(Verdict(4, 0))
  {
    hide Canonical, Means, Setting;
    var first := headers[0];
    ghost var good := Canonical(rules, db, chain) && Setting(rules, chain, headers);
    if good {
      SettingHas(rules, chain, headers);
      ParentStored(rules, db, chain, headers);
    }
    w := Walk([], [], 0, 0, 0, false);
    if |first.parentHash| != 32 {
      return w, Some(Verdict(2, 0));
    }
    if first.parentHash !in db.headers {
      return w, Some(Verdict(2, 0));
    }
    if !db.headers[first.parentHash].Readable? {
      return w, Some(Verdict(4, 0));
    }
    var weight := db.headers[first.parentHash].header.weight;
    var ts, ds := LoadWindow(rules, db, first.height, HISTORY, chain);
    w := Walk(ts, ds, weight, weight, first.height - 1, false);
    if good {
      EnoughHistory(chain, first.height, HISTORY, ts, ds, chain[..first.height]);
      MeansStart(rules, db, chain, now, headers, w);
    }
    if first.height >= HISTORY && |ts| < HISTORY {
      return w, Some(Verdict(4, 0));
    }
    early := None;
  }

  // ----- candidates that start at the genesis block

  ghost predicate StoredInDb(rules: Rules, db: Db, h: Header) {
    h.height in db.hashAt && db.hashAt[h.height] == HashOf(rules, h)
  }

  /** Stored already, or valid after the headers before it in the candidate alone. */
  ghost predicate GrownAt(rules: Rules, db: Db, now: nat, headers: seq<Header>, i: nat)
    requires i < |headers|
  {
    && (i > 0 ==> LinkedAt(rules, headers, i))
    && (StoredInDb(rules, db, headers[i]) || Valid(rules, now, headers[..i], headers[i]))
  }

  /** The pinned genesis hash, if there is one, whatever parent the first header names. */
  predicate GenesisAllowed(rules: Rules, first: Header) {
    rules.genesisHash == ZERO32 || HashOf(rules, first.(parentHash := ZERO32)) == rules.genesisHash
  }

  ghost predicate FromGenesis(rules: Rules, db: Db, now: nat, headers: seq<Header>) {
    && headers != [] && headers[0].height == 0 && GenesisAllowed(rules, headers[0])
    && forall i :: 0 <= i < |headers| ==> GrownAt(rules, db, now, headers, i)
  }

  ghost predicate Grown(rules: Rules, db: Db, now: nat, headers: seq<Header>, i: nat, ts: seq<u64>, ds: seq<u256>) {
    && headers != [] && headers[0].height == 0 && i <= |headers|
    && (forall j :: 0 <= j < i ==> GrownAt(rules, db, now, headers, j))
    && Windows(headers[..i], WINDOW, ts, ds)
  }

  /** One more header, linked and sound, keeps the walk from genesis. */
  lemma GrownStep(rules: Rules, db: Db, now: nat, headers: seq<Header>, i: nat, w: Walk)
    requires Grown(rules, db, now, headers, i, w.ts, w.ds) && i < |headers| && GrownAt(rules, db, now, headers, i)
    ensures Grown(rules, db, now, headers, i + 1, PushWindows(w, headers[i]).ts, PushWindows(w, headers[i]).ds)
  {
    hide GrownAt, Windows;
    WindowsPush(headers[..i], WINDOW, w.ts, w.ds, headers[i]);
    assert headers[..i + 1] == headers[..i] + [headers[i]];
  }

  /** The windows of a walk from genesis check what the reloaded ancestors check. */
  lemma GrownCheck(rules: Rules, db: Db, now: nat, headers: seq<Header>, i: nat, w: Walk)
    requires Grown(rules, db, now, headers, i, w.ts, w.ds) && i < |headers| && (i > 0 ==> LinkedAt(rules, headers, i))
    ensures headers[i].height >= HISTORY ==> |w.ts| >= HISTORY
    ensures Passes(rules, now, headers[i], w.ts, w.ds) <==> Valid(rules, now, headers[..i], headers[i])
  {
    hide MedianTime, NextDifficulty, Expected;
    forall j | 0 < j <= i ensures LinkedAt(rules, headers, j) {
      assert j < i ==> GrownAt(rules, db, now, headers, j);
    }
    LinkedHeights(rules, headers, i);
    WindowsExpect(headers[..i], WINDOW, w.ts, w.ds);
    if i == 0 { NoMedian(); }
  }

  lemma NoMedian()
    ensures MedianTime([]) == 0
  {
  }

  /** A header in the database, or a valid one, after its predecessor. */
  lemma GrownKnown(rules: Rules, db: Db, now: nat, headers: seq<Header>, i: nat, w: Walk)
    requires Grown(rules, db, now, headers, i, w.ts, w.ds) && i < |headers| && (i > 0 ==> LinkedAt(rules, headers, i))
    requires headers[i].height in db.hashAt && db.hashAt[headers[i].height] == HashOf(rules, headers[i])
    ensures Grown(rules, db, now, headers, i + 1, PushWindows(w, headers[i]).ts, PushWindows(w, headers[i]).ds)
  {
    hide Grown, Valid, PushWindows, HashOf, LinkedAt;
    GrownStep(rules, db, now, headers, i, w);
  }

  lemma GrownValid(rules: Rules, db: Db, now: nat, headers: seq<Header>, i: nat, w: Walk)
    requires Grown(rules, db, now, headers, i, w.ts, w.ds) && i < |headers| && (i > 0 ==> LinkedAt(rules, headers, i))
    requires Passes(rules, now, headers[i], w.ts, w.ds)
    ensures Grown(rules, db, now, headers, i + 1, PushWindows(w, headers[i]).ts, PushWindows(w, headers[i]).ds)
  {
    hide Grown, Valid, PushWindows, HashOf, LinkedAt, Passes;
    GrownCheck(rules, db, now, headers, i, w);
    GrownStep(rules, db, now, headers, i, w);
  }

  lemma GrownBroken(rules: Rules, db: Db, now: nat, headers: seq<Header>, i: nat, w: Walk)
    requires Grown(rules, db, now, headers, i, w.ts, w.ds) && i < |headers|
    requires
      || (i > 0 && (headers[i].height != headers[i - 1].height + 1 || headers[i].parentHash != HashOf(rules, headers[i - 1])))
      || ((i > 0 ==> LinkedAt(rules, headers, i)) && !Passes(rules, now, headers[i], w.ts, w.ds)
          && !(headers[i].height in db.hashAt && db.hashAt[headers[i].height] == HashOf(rules, headers[i])))
    ensures !FromGenesis(rules, db, now, headers)
  {
    hide Grown, Valid, HashOf, Passes;
    if i == 0 || LinkedAt(rules, headers, i) {
      GrownCheck(rules, db, now, headers, i, w);
    }
    assert !GrownAt(rules, db, now, headers, i);
  }

  lemma GrownWhole(rules: Rules, db: Db, now: nat, headers: seq<Header>, w: Walk)
    requires Grown(rules, db, now, headers, |headers|, w.ts, w.ds) && GenesisAllowed(rules, headers[0])
    ensures FromGenesis(rules, db, now, headers)
  {
  }

  lemma GrownStart(rules: Rules, db: Db, now: nat, headers: seq<Header>, w: Walk)
    requires headers != [] && headers[0].height == 0 && w.ts == [] && w.ds == []
    ensures Grown(rules, db, now, headers, 0, w.ts, w.ds)
  {
  }

  lemma SettingHas(rules: Rules, chain: seq<Header>, headers: seq<Header>)
    requires Setting(rules, chain, headers)
    ensures ParentCanonical(rules, headers, chain) && Hashes32(rules)
  {
  }

  /** `evaluate_header_chain` on decoded headers. */
  method EvaluateHeaderChain(rules: Rules, db: Db, now: nat, candidate: seq<Header>, ghost chain: seq<Header>)
    returns (v: Verdict)
    ensures candidate == [] ==> v == Verdict(2, 0)
    ensures candidate != [] && ByHeight(candidate)[0].height == 0 ==>
              v == Verdict(if FromGenesis(rules, db, now, ByHeight(candidate)) then 0 else 2, 0)
    ensures candidate != [] && ByHeight(candidate)[0].height > 0 ==>
              var parent := ByHeight(candidate)[0].parentHash;
              && (|parent| != 32 || parent !in db.headers ==> v == Verdict(2, 0))
              && (|parent| == 32 && parent in db.headers && !db.headers[parent].Readable? ==> v == Verdict(4, 0))
    ensures
      (candidate != [] && ByHeight(candidate)[0].height > 0 &&
       Canonical(rules, db, chain) && Setting(rules, chain, ByHeight(candidate))) ==>
        v == Judgement(rules, chain, db.finalized, now, ByHeight(candidate))
  {
    hide Canonical, Setting, Means, Matched, Valid, Passes, Judgement, HashOf, LinkedAt, PushWindows, ByHeight, Compare, Grown, GrownAt;
    if candidate == [] {
      return Verdict(2, 0);
    }
    ByHeightNonEmpty(candidate);
    var headers := ByHeight(candidate);
    var bootstrap := headers[0].height == 0;
    ghost var good := !bootstrap && Canonical(rules, db, chain) && Setting(rules, chain, headers);
    if good { SettingHas(rules, chain, headers); }
    var w := Walk([], [], 0, 0, 0, false);
    if bootstrap {
      var genesis := HashOf(rules, headers[0].(parentHash := ZERO32));
      if rules.genesisHash != ZERO32 && genesis != rules.genesisHash {
        return Verdict(2, 0);
      }
      GrownStart(rules, db, now, headers, w);
    } else {
      var start, early := StartWalk(rules, db, headers, now, chain);
      if early.Some? {
        return early.value;
      }
      w := start;
    }

    ghost var k, m: nat := 0, HISTORY;
    for i := 0 to |headers|
      invariant good ==> Means(rules, chain, db.finalized, now, headers, i, k, m, w)
      invariant bootstrap ==> Grown(rules, db, now, headers, i, w.ts, w.ds)
      invariant !bootstrap ==> |headers[0].parentHash| == 32 && headers[0].parentHash in db.headers && db.headers[headers[0].parentHash].Readable?
    {
      var h := headers[i];
      if i > 0 {
        if h.height != headers[i - 1].height + 1 || h.parentHash != HashOf(rules, headers[i - 1]) {
          if good { NotLinkedAt(rules, chain, db.finalized, now, headers, i); }
          if bootstrap { GrownBroken(rules, db, now, headers, i, w); }
          return Verdict(2, 0);
        }
        AreLinkedAt(rules, headers, i);
      }
      if good { StoredHash(rules, db, chain, h); }
      var hash := HashOf(rules, h);
      var matched := h.height in db.hashAt && db.hashAt[h.height] == hash;
      var deep := w.deep || (h.height in db.hashAt && !matched && h.height <= db.finalized);
      if matched {
        if good { MeansMatched(rules, db, chain, now, headers, i, k, m, w); }
        var slid := SlideWindows(w, h);
        if bootstrap { GrownKnown(rules, db, now, headers, i, w); }
        w := slid.(forkPoint := h.height);
        var stored := ReadHeader(db, hash);
        if stored.Some? {
          w := w.(weight := stored.value.weight, weightAtFork := stored.value.weight);
        }
        k, m := i + 1, WINDOW;
        continue;
      }
      if good { CheckMeans(rules, chain, db.finalized, now, headers, i, k, m, w); }
      if bootstrap { GrownCheck(rules, db, now, headers, i, w); }
      if h.height >= HISTORY && |w.ts| < HISTORY {
        var ts, ds := ReloadWindow(db, headers, h.height);
        w := w.(ts := ts, ds := ds);
      }
      var passes := CheckUnstored(rules, now, h, w.ts, w.ds);
      if !passes {
        if good { UnsoundHeader(rules, chain, db.finalized, now, headers, i); }
        if bootstrap { GrownBroken(rules, db, now, headers, i, w); }
        return Verdict(2, 0);
      }
      if good { MeansUnmatched(rules, chain, db.finalized, now, headers, i, k, m, w); }
      var slid := SlideWindows(w, h);
      if bootstrap { GrownValid(rules, db, now, headers, i, w); }
      w := slid.(weight := w.weight + h.difficulty, deep := deep);
      m := WINDOW;
    }

    if bootstrap {
      GrownWhole(rules, db, now, headers, w);
      return Verdict(0, 0);
    }
    var tip := HeaderAt(db, db.tip);
    var tipWeight := if tip.Some? then tip.value.weight else 0;
    if good {
      MeansEnd(rules, db, chain, now, headers, k, m, w);
    }
    v := Compare(w.deep, w.forkPoint, w.weight, w.weightAtFork, tipWeight);
  }

  lemma AreLinkedAt(rules: Rules, headers: seq<Header>, i: nat)
    requires 0 < i < |headers|
    requires headers[i].height == headers[i - 1].height + 1 && headers[i].parentHash == HashOf(rules, headers[i - 1])
    ensures LinkedAt(rules, headers, i)
  {
  }

  lemma NotLinkedAt(rules: Rules, chain: seq<Header>, finalized: nat, now: nat, headers: seq<Header>, i: nat)
    requires ParentCanonical(rules, headers, chain) && 0 < i < |headers|
    requires headers[i].height != headers[i - 1].height + 1 || headers[i].parentHash != HashOf(rules, headers[i - 1])
    ensures Judgement(rules, chain, finalized, now, headers) == Verdict(2, 0)
  {
    hide Judgement;
    BrokenLink(rules, chain, finalized, now, headers, i);
  }

  lemma MeansEnd(rules: Rules, db: Db, chain: seq<Header>, now: nat, headers: seq<Header>, k: nat, m: nat, w: Walk)
    requires Canonical(rules, db, chain) && Setting(rules, chain, headers)
    requires Means(rules, chain, db.finalized, now, headers, |headers|, k, m, w)
    ensures HeaderAt(db, db.tip) == Some(chain[|chain| - 1])
    ensures Judgement(rules, chain, db.finalized, now, headers) ==
            Compare(w.deep, w.forkPoint, w.weight, w.weightAtFork, chain[|chain| - 1].weight)
  {
    hide Judgement, Walked, Windows, Compare, Work, Canonical, HeaderAt, DeepUpTo, Setting;
    TipStored(rules, db, chain);
    KnownCount(rules, chain, now, headers, |headers|, k);
    assert headers[k..|headers|] == headers[k..];
    SettingHas(rules, chain, headers);
    WalkEnds(rules, chain, db.finalized, now, headers, k);
  }

  lemma TipStored(rules: Rules, db: Db, chain: seq<Header>)
    requires Canonical(rules, db, chain)
    ensures chain != [] && HeaderAt(db, db.tip) == Some(chain[|chain| - 1])
  {
  }
}
