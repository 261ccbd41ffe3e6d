/**
Judging a chain of headers against the stored chain.

The evaluator walks the candidate once, keeping a sliding window of timestamps and
difficulties, the accumulated weight and the fork point. The reference judgement below
reloads the last 121 ancestors for every header and finds the fork point by definition;
`EvaluateHeaderChain` is proved to return it whenever the candidate's parent is canonical.
*/
module HeaderChain {
  import opened Difficulty
  import opened Machine
  import opened Wrappers

  const HISTORY := WINDOW + 1
  const MTP_WINDOW := 11
  const MAX_FUTURE := 300
  const DEEP_FACTOR := 10

  /** A header with its two little-endian integers decoded. */
  datatype Header = Header(
    height: nat, parentHash: Bytes, timestamp: u64, txRoot: Bytes, difficulty: u256, nonce: u64, weight: nat)

  /** The fields that enter the header hash, each at its fixed width. */
  datatype Packed = Packed(height: nat, parentHash: Bytes, timestamp: u64, txRoot: Bytes, difficulty: u256)

  /** Hash and proof-of-work check are library code. */
  datatype Rules = Rules(hash: Packed -> Bytes, pow: (Bytes, u64, u256, nat) -> bool, genesisHash: Bytes)

  datatype Stored = Blank | Garbled | Readable(header: Header)

  datatype Db = Db(hashAt: map<nat, Bytes>, headers: map<Bytes, Stored>, tip: nat, finalized: nat)

  /** status: 0 heavier, 1 lighter or ignored, 2 invalid, 4 local database damaged. */
  datatype Verdict = Verdict(status: nat, forkPoint: nat)

  function Pack(h: Header): Packed {
    Packed(h.height, Fixed32(h.parentHash), h.timestamp, Fixed32(h.txRoot), h.difficulty)
  }

  function HashOf(rules: Rules, h: Header): Bytes {
    rules.hash(Pack(h))
  }

  function ReadHeader(db: Db, hash: Bytes): Option<Header> {
    if hash in db.headers && db.headers[hash].Readable? then Some(db.headers[hash].header) else None
  }

  function HeaderAt(db: Db, height: nat): Option<Header> {
    if height in db.hashAt then ReadHeader(db, db.hashAt[height]) else None
  }

  // ----- time rules

  function Insert(x: u64, sorted: seq<u64>): seq<u64> {
    if sorted == [] || x <= sorted[0] then [x] + sorted else [sorted[0]] + Insert(x, sorted[1..])
  }

  function Sort(s: seq<u64>): seq<u64> {
    if s == [] then [] else Insert(s[0], Sort(s[1..]))
  }

  lemma {:induction false} InsertLength(x: u64, sorted: seq<u64>)
    ensures |Insert(x, sorted)| == |sorted| + 1
  {
    if sorted != [] && x > sorted[0] {
      InsertLength(x, sorted[1..]);
    }
  }

  lemma {:induction false} SortLength(s: seq<u64>)
    ensures |Sort(s)| == |s|
  {
    if s != [] {
      SortLength(s[1..]);
      InsertLength(s[0], Sort(s[1..]));
    }
  }

  /** Median of the last eleven times, 0 when there is none. */
  function MedianTime(ts: seq<u64>): u64 {
    var recent := LastN(ts, MTP_WINDOW);
    SortLength(recent);
    if recent == [] then 0 else Sort(recent)[|recent| / 2]
  }

  /** `verify_timestamp_firewall`. */
  predicate InTime(timestamp: u64, median: u64, now: nat) {
    median < timestamp <= now + MAX_FUTURE
  }

  // ----- windows

  function LastN<T>(s: seq<T>, n: nat): seq<T> {
    if |s| <= n then s else s[|s| - n..]
  }

  function Times(headers: seq<Header>): (ts: seq<u64>)
    ensures |ts| == |headers|
    ensures forall i :: 0 <= i < |ts| ==> ts[i] == headers[i].timestamp
  {
    seq(|headers|, i requires 0 <= i < |headers| => headers[i].timestamp)
  }

  function Diffs(headers: seq<Header>): (ds: seq<u256>)
    ensures |ds| == |headers|
    ensures forall i :: 0 <= i < |ds| ==> ds[i] == headers[i].difficulty
  {
    seq(|headers|, i requires 0 <= i < |headers| => headers[i].difficulty)
  }

  /** The difficulty a block with these ancestors must have: the last 121 of them, reloaded. */
  function Expected(ancestors: seq<Header>): u256 {
    NextDifficulty(Times(LastN(ancestors, HISTORY)), Diffs(LastN(ancestors, HISTORY)))
  }

  /** The full check of a header that is not already stored. */
  predicate Valid(rules: Rules, now: nat, ancestors: seq<Header>, h: Header) {
    && (ancestors != [] ==> h.difficulty == Expected(ancestors))
    && rules.pow(HashOf(rules, h), h.nonce, h.difficulty, h.height)
    && InTime(h.timestamp, MedianTime(Times(ancestors)), now)
  }

  // ----- the stored chain

  /** A complete, hash-linked chain whose weights add up and whose difficulties are positive. */
  ghost predicate ChainOk(rules: Rules, chain: seq<Header>) {
    && chain != []
    && (forall i :: 0 <= i < |chain| ==> chain[i].height == i && chain[i].difficulty > 0)
    && (forall i :: 0 < i < |chain| ==>
          && chain[i].parentHash == HashOf(rules, chain[i - 1])
          && chain[i].weight == chain[i - 1].weight + chain[i].difficulty)
  }

  ghost predicate Canonical(rules: Rules, db: Db, chain: seq<Header>) {
    && ChainOk(rules, chain)
    && db.tip == |chain| - 1
    && (forall h: nat :: h in db.hashAt <==> h < |chain|)
    && (forall h :: 0 <= h < |chain| ==>
          && db.hashAt[h] == HashOf(rules, chain[h])
          && HashOf(rules, chain[h]) in db.headers
          && db.headers[HashOf(rules, chain[h])] == Readable(chain[h]))
  }

  ghost predicate Hashes32(rules: Rules) {
    forall p :: |rules.hash(p)| == 32
  }

  /** No stored header hashes to zero, which stands for an absent parent. */
  ghost predicate NeverZero(rules: Rules, chain: seq<Header>) {
    forall i :: 0 <= i < |chain| ==> HashOf(rules, chain[i]) != ZERO32
  }

  /** No candidate header collides with a stored one. */
  ghost predicate NoCollision(rules: Rules, headers: seq<Header>, chain: seq<Header>) {
    forall i, j ::
      (0 <= i < |headers| && 0 <= j < |chain| && HashOf(rules, headers[i]) == HashOf(rules, chain[j])) ==>
        Pack(headers[i]) == Pack(chain[j])
  }

  ghost predicate ParentCanonical(rules: Rules, headers: seq<Header>, chain: seq<Header>) {
    && headers != [] && 0 < headers[0].height <= |chain|
    && headers[0].parentHash == HashOf(rules, chain[headers[0].height - 1])
  }

  // ----- the reference judgement

  ghost predicate Linked(rules: Rules, headers: seq<Header>) {
    forall i :: 0 < i < |headers| ==>
      headers[i].height == headers[i - 1].height + 1 && headers[i].parentHash == HashOf(rules, headers[i - 1])
  }

  ghost predicate Matched(rules: Rules, chain: seq<Header>, h: Header) {
    h.height < |chain| && HashOf(rules, h) == HashOf(rules, chain[h.height])
  }

  ghost function Ancestors(chain: seq<Header>, headers: seq<Header>, i: nat): seq<Header>
    requires headers != [] && headers[0].height <= |chain| && i <= |headers|
  {
    chain[..headers[0].height] + headers[..i]
  }

  ghost predicate AllSound(rules: Rules, chain: seq<Header>, now: nat, headers: seq<Header>)
    requires headers != [] && headers[0].height <= |chain|
  {
    forall i :: 0 <= i < |headers| ==>
      Matched(rules, chain, headers[i]) || Valid(rules, now, Ancestors(chain, headers, i), headers[i])
  }

  /** How many leading headers are already stored. */
  ghost function CommonCount(rules: Rules, chain: seq<Header>, headers: seq<Header>): (k: nat)
    ensures k <= |headers|
    ensures forall i :: 0 <= i < k ==> Matched(rules, chain, headers[i])
    ensures k < |headers| ==> !Matched(rules, chain, headers[k])
  {
    if headers == [] || !Matched(rules, chain, headers[0]) then 0
    else 1 + CommonCount(rules, chain, headers[1..])
  }

  function Work(headers: seq<Header>): nat {
    if headers == [] then 0 else Work(headers[..|headers| - 1]) + headers[|headers| - 1].difficulty
  }

  /** The candidate disagrees with a stored block at or below finality. */
  ghost predicate Deep(rules: Rules, chain: seq<Header>, finalized: nat, headers: seq<Header>) {
    exists i :: 0 <= i < |headers| &&
      headers[i].height < |chain| && headers[i].height <= finalized && !Matched(rules, chain, headers[i])
  }

  function Compare(deep: bool, forkPoint: nat, newWeight: nat, weightAtFork: nat, tipWeight: nat): Verdict {
    if deep then
      var localWork := if weightAtFork <= tipWeight then tipWeight - weightAtFork else 0;
      var newWork := if weightAtFork <= newWeight then newWeight - weightAtFork else 0;
      if newWork >= Min(DEEP_FACTOR * localWork, U256_MAX) then Verdict(0, forkPoint)
      else if newWork >= localWork then Verdict(1, forkPoint)
      else Verdict(2, 0)
    else if newWeight > tipWeight then Verdict(0, forkPoint)
    else Verdict(1, forkPoint)
  }

  ghost function Judgement(rules: Rules, chain: seq<Header>, finalized: nat, now: nat, headers: seq<Header>): Verdict
    requires ParentCanonical(rules, headers, chain)
  {
    if !Linked(rules, headers) || !AllSound(rules, chain, now, headers) then Verdict(2, 0)
    else
      var k := CommonCount(rules, chain, headers);
      var fork := headers[0].height - 1 + k;
      var weightAtFork := if fork < |chain| then chain[fork].weight else 0;
      Compare(Deep(rules, chain, finalized, headers), fork, weightAtFork + Work(headers[k..]), weightAtFork,
              chain[|chain| - 1].weight)
  }
}
