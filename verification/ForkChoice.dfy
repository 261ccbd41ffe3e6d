/**
Fork choice over runs: a node whose tip changes only by extending it or by adopting a
candidate the header evaluator judged heavier. Finality follows each committed block.
*/
module ForkChoice {
  import opened Difficulty
  import opened HeaderChain
  import opened HeaderEvaluation
  import opened HeaderWindows
  import opened Machine

  const CONFIRMATIONS := 5

  datatype Node = Node(chain: seq<Header>, finalized: nat)

  datatype Event =
    | Extended(block: Header, now: nat)
    | Adopted(headers: seq<Header>, now: nat)
    | Finalized(height: nat)

  function TipWeight(node: Node): nat
    requires node.chain != []
  {
    node.chain[|node.chain| - 1].weight
  }

  function TipFinality(chain: seq<Header>): nat
    requires chain != []
  {
    if |chain| - 1 >= CONFIRMATIONS then |chain| - 1 - CONFIRMATIONS else 0
  }

  /** Stored headers carry the weight this node computed for them. */
  function Reweigh(weight: nat, headers: seq<Header>): (r: seq<Header>)
    ensures |r| == |headers|
  {
    if headers == [] then []
    else
      var last := |headers| - 1;
      Reweigh(weight, headers[..last]) + [headers[last].(weight := weight + Work(headers))]
  }

  ghost predicate Allowed(rules: Rules, node: Node, e: Event) {
    match e
    case Extended(h, now) =>
      && node.chain != [] && h.height == |node.chain|
      && h.parentHash == HashOf(rules, node.chain[|node.chain| - 1])
      && Valid(rules, now, node.chain, h)
    case Adopted(headers, now) =>
      && Setting(rules, node.chain, headers)
      && Judgement(rules, node.chain, node.finalized, now, headers).status == 0
    case Finalized(f) => node.finalized < f && f + CONFIRMATIONS < |node.chain|
  }

  ghost function ForkOf(rules: Rules, node: Node, e: Event): nat
    requires Allowed(rules, node, e) && e.Adopted?
  {
    Judgement(rules, node.chain, node.finalized, e.now, e.headers).forkPoint
  }

  /** The headers of an adopted candidate that are not stored yet. */
  ghost function Fresh(rules: Rules, node: Node, e: Event): seq<Header>
    requires Allowed(rules, node, e) && e.Adopted?
  {
    e.headers[CommonCount(rules, node.chain, e.headers)..]
  }

  lemma ForkInChain(rules: Rules, node: Node, e: Event)
    requires Allowed(rules, node, e) && e.Adopted?
    ensures ForkOf(rules, node, e) < |node.chain|
  {
    hide Judgement, Setting, Matched;
    ForkPointIsLastCommon(rules, node.chain, node.finalized, e.now, e.headers);
  }

  ghost function NewChain(rules: Rules, node: Node, e: Event): (chain: seq<Header>)
    requires node.chain != [] && Allowed(rules, node, e)
    ensures chain != []
  {
    match e
    case Extended(h, _) => node.chain + Reweigh(TipWeight(node), [h])
    case Adopted(_, _) =>
      ForkInChain(rules, node, e);
      var fork := ForkOf(rules, node, e);
      node.chain[..fork + 1] + Reweigh(node.chain[fork].weight, Fresh(rules, node, e))
    case Finalized(_) => node.chain
  }

  ghost function Next(rules: Rules, node: Node, e: Event): (after: Node)
    requires node.chain != [] && Allowed(rules, node, e)
    ensures after.chain != []
  {
    var chain := NewChain(rules, node, e);
    Node(chain, if e.Finalized? then e.height else TipFinality(chain))
  }

  // ----- appending a linked, valid segment

  /** Header i of a segment continues `base` and the segment before it. */
  ghost predicate Follows(rules: Rules, base: seq<Header>, segment: seq<Header>, i: nat)
    requires base != [] && i < |segment|
  {
    && segment[i].height == |base| + i && segment[i].difficulty > 0
    && (i == 0 ==> segment[i].parentHash == HashOf(rules, base[|base| - 1]))
    && (i > 0 ==> segment[i].parentHash == HashOf(rules, segment[i - 1]))
  }

  ghost predicate Continues(rules: Rules, base: seq<Header>, segment: seq<Header>)
    requires base != []
  {
    forall i :: 0 <= i < |segment| ==> Follows(rules, base, segment, i)
  }

  lemma HashIgnoresWeight(rules: Rules, h: Header, weight: nat)
    ensures HashOf(rules, h.(weight := weight)) == HashOf(rules, h)
  {
  }

  /** A segment stored with its own weights on a sound chain gives a sound chain. */
  lemma {:induction false} AppendKeepsChain(rules: Rules, base: seq<Header>, segment: seq<Header>)
    requires ChainOk(rules, base) && Continues(rules, base, segment)
    ensures
      var chain := base + Reweigh(base[|base| - 1].weight, segment);
      && ChainOk(rules, chain)
      && chain[|chain| - 1].weight == base[|base| - 1].weight + Work(segment)
    decreases |segment|
  {
    hide HashOf, Follows, ChainOk;
    ChainNotEmpty(rules, base);
    var start := base[|base| - 1].weight;
    if segment == [] {
      assert base + Reweigh(start, segment) == base;
    } else {
      var last := |segment| - 1;
      var rest := segment[..last];
      FrontContinues(rules, base, segment);
      AppendKeepsChain(rules, base, rest);
      LinksToTop(rules, base, segment);
      AppendOne(rules, base + Reweigh(start, rest), segment[last], start + Work(segment));
      assert (base + Reweigh(start, rest)) + [segment[last].(weight := start + Work(segment))]
          == base + Reweigh(start, segment);
    }
  }

  lemma FrontContinues(rules: Rules, base: seq<Header>, segment: seq<Header>)
    requires base != [] && segment != [] && Continues(rules, base, segment)
    ensures Continues(rules, base, segment[..|segment| - 1])
  {
    hide HashOf;
    var rest := segment[..|segment| - 1];
    forall i | 0 <= i < |rest| ensures Follows(rules, base, rest, i) {
      assert Follows(rules, base, segment, i);
    }
  }

  /** The last header of a segment links to what the rest of it leaves on top. */
  lemma LinksToTop(rules: Rules, base: seq<Header>, segment: seq<Header>)
    requires base != [] && segment != [] && Continues(rules, base, segment)
    ensures
      var chain := base + Reweigh(base[|base| - 1].weight, segment[..|segment| - 1]);
      var h := segment[|segment| - 1];
      && h.height == |chain| && h.difficulty > 0
      && h.parentHash == HashOf(rules, chain[|chain| - 1])
  {
    hide HashOf, Work;
    var n := |segment|;
    assert Follows(rules, base, segment, n - 1);
    var rest := segment[..n - 1];
    if n > 1 {
      HashIgnoresWeight(rules, rest[n - 2], base[|base| - 1].weight + Work(rest));
    }
  }

  lemma AppendOne(rules: Rules, chain: seq<Header>, h: Header, weight: nat)
    requires ChainOk(rules, chain)
    requires h.height == |chain| && h.difficulty > 0 && h.parentHash == HashOf(rules, chain[|chain| - 1])
    requires weight == chain[|chain| - 1].weight + h.difficulty
    ensures ChainOk(rules, chain + [h.(weight := weight)])
  {
    hide HashOf;
  }

  lemma NoWork(headers: seq<Header>)
    requires headers == []
    ensures Work(headers) == 0
  {
  }

  /** A valid header's difficulty is at least the minimum. */
  lemma ValidIsPositive(rules: Rules, now: nat, ancestors: seq<Header>, h: Header)
    requires ancestors != [] && Valid(rules, now, ancestors, h)
    ensures h.difficulty >= MIN_DIFFICULTY > 0
  {
    hide NextDifficulty, MedianTime;
    WithinQuarter(Times(LastN(ancestors, HISTORY)), Diffs(LastN(ancestors, HISTORY)));
  }

  /** A prefix of a sound chain is sound. */
  lemma PrefixOk(rules: Rules, chain: seq<Header>, n: nat)
    requires ChainOk(rules, chain) && 0 < n <= |chain|
    ensures ChainOk(rules, chain[..n])
  {
  }

  lemma AdoptedContinues(rules: Rules, node: Node, e: Event)
    requires Allowed(rules, node, e) && e.Adopted?
    ensures ForkOf(rules, node, e) < |node.chain|
    ensures Continues(rules, node.chain[..ForkOf(rules, node, e) + 1], Fresh(rules, node, e))
  {
    hide *;
    ForkInChain(rules, node, e);
    var base, segment := node.chain[..ForkOf(rules, node, e) + 1], Fresh(rules, node, e);
    forall i | 0 <= i < |segment| ensures Follows(rules, base, segment, i) {
      AdoptedFollows(rules, node, e, i);
    }
    AllFollow(rules, base, segment);
  }

  lemma AllFollow(rules: Rules, base: seq<Header>, segment: seq<Header>)
    requires base != [] && forall i :: 0 <= i < |segment| ==> Follows(rules, base, segment, i)
    ensures Continues(rules, base, segment)
  {
  }

  lemma AdoptedFollows(rules: Rules, node: Node, e: Event, i: nat)
    requires Allowed(rules, node, e) && e.Adopted? && i < |Fresh(rules, node, e)|
    requires ForkOf(rules, node, e) < |node.chain|
    ensures Follows(rules, node.chain[..ForkOf(rules, node, e) + 1], Fresh(rules, node, e), i)
  {
    hide Setting, Valid, Matched, Judgement, HashOf, AllSound, Linked, CommonCount;
    var chain, headers := node.chain, e.headers;
    var k := CommonCount(rules, chain, headers);
    AdoptedHeader(rules, node, e, k + i);
    if i == 0 && k > 0 {
      AdoptedHeader(rules, node, e, k - 1);
      MatchedHash(rules, chain, headers[k - 1]);
    }
  }

  /** Every header of an adopted candidate: its height, its link, and validity if it is new. */
  lemma AdoptedHeader(rules: Rules, node: Node, e: Event, j: nat)
    requires Allowed(rules, node, e) && e.Adopted? && j < |e.headers|
    ensures ParentCanonical(rules, e.headers, node.chain)
    ensures
      var k := CommonCount(rules, node.chain, e.headers);
      && ForkOf(rules, node, e) == e.headers[0].height - 1 + k
      && e.headers[j].height == e.headers[0].height + j
      && (j > 0 ==> e.headers[j].parentHash == HashOf(rules, e.headers[j - 1]))
      && (j < k ==> Matched(rules, node.chain, e.headers[j]))
      && (j >= k ==> e.headers[j].difficulty > 0)
  {
    hide Setting, Valid, Matched, Judgement, HashOf;
    var chain, headers := node.chain, e.headers;
    SettingHas(rules, chain, headers);
    ForkPointIsLastCommon(rules, chain, node.finalized, e.now, headers);
    CompareFork(rules, chain, node.finalized, e.now, headers);
    var k := CommonCount(rules, chain, headers);
    if j >= k {
      assert !Matched(rules, chain, headers[j]);
      ValidIsPositive(rules, e.now, Ancestors(chain, headers, j), headers[j]);
    }
  }

  lemma MatchedHash(rules: Rules, chain: seq<Header>, h: Header)
    requires Matched(rules, chain, h)
    ensures h.height < |chain| && HashOf(rules, h) == HashOf(rules, chain[h.height])
  {
  }

  // ----- one step

  lemma ExtensionKeepsChain(rules: Rules, node: Node, e: Event)
    requires ChainOk(rules, node.chain) && Allowed(rules, node, e) && e.Extended?
    ensures ChainOk(rules, Next(rules, node, e).chain)
    ensures TipWeight(Next(rules, node, e)) == TipWeight(node) + e.block.difficulty && e.block.difficulty > 0
  {
    hide Valid, Work, ChainOk, HashOf;
    ValidIsPositive(rules, e.now, node.chain, e.block);
    SingleWork(e.block);
    assert Follows(rules, node.chain, [e.block], 0);
    AppendKeepsChain(rules, node.chain, [e.block]);
  }

  lemma AdoptionKeepsChain(rules: Rules, node: Node, e: Event)
    requires ChainOk(rules, node.chain) && Allowed(rules, node, e) && e.Adopted?
    ensures ChainOk(rules, Next(rules, node, e).chain)
    ensures
      var fork := ForkOf(rules, node, e);
      && fork < |node.chain|
      && TipWeight(Next(rules, node, e)) == node.chain[fork].weight + Work(Fresh(rules, node, e))
  {
    hide Allowed, Work, ChainOk, ForkOf, Fresh, Reweigh, Continues;
    AdoptedContinues(rules, node, e);
    var fork := ForkOf(rules, node, e);
    PrefixOk(rules, node.chain, fork + 1);
    AppendKeepsChain(rules, node.chain[..fork + 1], Fresh(rules, node, e));
  }

  /** Every step keeps a complete, hash-linked chain whose weights add up. */
  lemma StepKeepsChain(rules: Rules, node: Node, e: Event)
    requires ChainOk(rules, node.chain) && Allowed(rules, node, e)
    ensures ChainOk(rules, Next(rules, node, e).chain)
    ensures e.Adopted? ==>
              var fork := ForkOf(rules, node, e);
              && fork < |node.chain|
              && TipWeight(Next(rules, node, e)) == node.chain[fork].weight + Work(Fresh(rules, node, e))
    ensures e.Extended? ==> TipWeight(Next(rules, node, e)) == TipWeight(node) + e.block.difficulty
    ensures e.Extended? ==> e.block.difficulty > 0
  {
    hide *;
    if e.Extended? {
      ExtensionKeepsChain(rules, node, e);
    } else if e.Adopted? {
      AdoptionKeepsChain(rules, node, e);
    } else {
      FinalizedKeepsChain(rules, node, e);
    }
  }

  lemma FinalizedKeepsChain(rules: Rules, node: Node, e: Event)
    requires ChainOk(rules, node.chain) && Allowed(rules, node, e) && e.Finalized?
    ensures node.chain != [] && Next(rules, node, e).chain == node.chain
  {
    hide Valid, Judgement;
  }

  lemma SingleWork(h: Header)
    ensures Work([h]) == h.difficulty
  {
  }

  /** Weights grow along a sound chain. */
  lemma {:induction false} WeightsGrow(rules: Rules, chain: seq<Header>, i: nat, j: nat)
    requires ChainOk(rules, chain) && i <= j < |chain|
    ensures chain[i].weight + (j - i) <= chain[j].weight
    decreases j - i
  {
    if i < j {
      WeightsGrow(rules, chain, i, j - 1);
    }
  }

  /** What a verdict of 0 says about the two segments above the fork. */
  lemma AdoptionIsHeavier(rules: Rules, node: Node, e: Event)
    requires ChainOk(rules, node.chain) && Allowed(rules, node, e) && e.Adopted?
    requires TipWeight(node) < U256_MAX
    ensures Work(Fresh(rules, node, e)) > LocalWork(rules, node, e)
    ensures (Deep(rules, node.chain, node.finalized, e.headers) && DEEP_FACTOR * LocalWork(rules, node, e) <= U256_MAX) ==>
              Work(Fresh(rules, node, e)) >= DEEP_FACTOR * LocalWork(rules, node, e)
  {
    hide Setting, Valid, Matched, Work, Deep, ChainOk, Linked, AllSound;
    ForkInChain(rules, node, e);
    var fork := ForkOf(rules, node, e);
    WeightsGrow(rules, node.chain, fork, |node.chain| - 1);
    SettingHas(rules, node.chain, e.headers);
    CompareFork(rules, node.chain, node.finalized, e.now, e.headers);
    if Deep(rules, node.chain, node.finalized, e.headers) {
      DeepForkIsLow(rules, node, e);
    }
  }

  /** Work of the local blocks above the fork. */
  ghost function LocalWork(rules: Rules, node: Node, e: Event): int
    requires node.chain != [] && Allowed(rules, node, e) && e.Adopted?
  {
    ForkInChain(rules, node, e);
    TipWeight(node) - node.chain[ForkOf(rules, node, e)].weight
  }

  lemma DeepForkIsLow(rules: Rules, node: Node, e: Event)
    requires Allowed(rules, node, e) && e.Adopted?
    requires Deep(rules, node.chain, node.finalized, e.headers)
    ensures ForkOf(rules, node, e) < |node.chain| - 1
  {
    hide Setting, Valid, Matched, Judgement;
    ForkPointIsLastCommon(rules, node.chain, node.finalized, e.now, e.headers);
  }

  /** Tip work strictly grows whenever the tip changes. */
  lemma WorkGrows(rules: Rules, node: Node, e: Event)
    requires ChainOk(rules, node.chain) && Allowed(rules, node, e) && TipWeight(node) < U256_MAX
    ensures e.Finalized? ==> Next(rules, node, e).chain == node.chain
    ensures !e.Finalized? ==> TipWeight(Next(rules, node, e)) > TipWeight(node)
  {
    hide Valid, Work, Judgement, ChainOk, Setting, Deep;
    StepKeepsChain(rules, node, e);
    if e.Adopted? {
      AdoptionIsHeavier(rules, node, e);
    }
  }

  /** The block at this height is still the same one. */
  ghost predicate Kept(rules: Rules, before: seq<Header>, after: seq<Header>, height: nat)
    requires height < |before|
  {
    height < |after| && HashOf(rules, after[height]) == HashOf(rules, before[height])
  }

  /** An adoption whose new segment carries at least ten times the work it replaces. */
  ghost predicate TenTimes(rules: Rules, node: Node, e: Event)
    requires node.chain != []
  {
    && Allowed(rules, node, e) && e.Adopted?
    && Work(Fresh(rules, node, e)) >= DEEP_FACTOR * LocalWork(rules, node, e) > 0
  }

  /** A block at or below finality is displaced only by a segment of ten times the local work. */
  lemma FinalityHolds(rules: Rules, node: Node, e: Event, height: nat)
    requires ChainOk(rules, node.chain) && Allowed(rules, node, e)
    requires DEEP_FACTOR * TipWeight(node) <= U256_MAX
    requires height < |node.chain| && height <= node.finalized
    requires !Kept(rules, node.chain, Next(rules, node, e).chain, height)
    ensures TenTimes(rules, node, e)
  {
    hide Valid, Work, Judgement, ChainOk, Setting, Deep;
    if e.Adopted? {
      ForkInChain(rules, node, e);
      var fork := ForkOf(rules, node, e);
      assert fork < height;
      WeightsGrow(rules, node.chain, fork, |node.chain| - 1);
      AdoptionIsHeavier(rules, node, e);
      DisplacedIsDeep(rules, node, e);
    }
  }

  lemma DisplacedIsDeep(rules: Rules, node: Node, e: Event)
    requires ChainOk(rules, node.chain) && Allowed(rules, node, e) && e.Adopted?
    requires TipWeight(node) < U256_MAX
    requires ForkOf(rules, node, e) < node.finalized && ForkOf(rules, node, e) < |node.chain| - 1
    ensures Deep(rules, node.chain, node.finalized, e.headers)
  {
    hide Valid, Work, Judgement, ChainOk, Setting, Matched;
    var headers := e.headers;
    ForkPointIsLastCommon(rules, node.chain, node.finalized, e.now, headers);
    CompareForkOf(rules, node, e);
    AdoptionIsHeavier(rules, node, e);
    ForkWeightBelowTip(rules, node, e);
    var k := CommonCount(rules, node.chain, headers);
    if k == |headers| {
      NoWork(headers[k..]);
    }
    assert headers[k].height == ForkOf(rules, node, e) + 1;
  }

  lemma CompareForkOf(rules: Rules, node: Node, e: Event)
    requires Allowed(rules, node, e) && e.Adopted?
    ensures ParentCanonical(rules, e.headers, node.chain)
    ensures ForkOf(rules, node, e) == e.headers[0].height - 1 + CommonCount(rules, node.chain, e.headers)
  {
    hide Judgement, CommonCount;
    CompareFork(rules, node.chain, node.finalized, e.now, e.headers);
  }

  lemma ForkWeightBelowTip(rules: Rules, node: Node, e: Event)
    requires ChainOk(rules, node.chain) && Allowed(rules, node, e) && e.Adopted?
    ensures LocalWork(rules, node, e) >= 0
  {
    hide Judgement, ChainOk, Setting;
    ForkInChain(rules, node, e);
    WeightsGrow(rules, node.chain, ForkOf(rules, node, e), |node.chain| - 1);
  }

  // ----- whole runs

  /** A run: every node comes from the one before by an allowed event. */
  ghost predicate Run(rules: Rules, nodes: seq<Node>, events: seq<Event>) {
    && |nodes| == |events| + 1
    && ChainOk(rules, nodes[0].chain)
    && forall i :: 0 <= i < |events| ==> StepAt(rules, nodes, events, i)
  }

  ghost predicate StepAt(rules: Rules, nodes: seq<Node>, events: seq<Event>, i: nat)
    requires i < |events| && |nodes| == |events| + 1
  {
    && nodes[i].chain != [] && Allowed(rules, nodes[i], events[i])
    && nodes[i + 1] == Next(rules, nodes[i], events[i])
  }

  /** Work stays far from the top of the 256-bit range up to node i. */
  ghost predicate Unsaturated(nodes: seq<Node>, i: nat)
    requires i <= |nodes|
  {
    forall m :: 0 <= m < i ==> nodes[m].chain != [] && DEEP_FACTOR * TipWeight(nodes[m]) <= U256_MAX
  }

  /** Every node of a run holds a sound chain. */
  lemma {:induction false} RunKeepsChain(rules: Rules, nodes: seq<Node>, events: seq<Event>, i: nat)
    requires Run(rules, nodes, events) && i < |nodes|
    ensures ChainOk(rules, nodes[i].chain)
  {
    hide ChainOk, Allowed, NewChain;
    if i > 0 {
      RunKeepsChain(rules, nodes, events, i - 1);
      assert StepAt(rules, nodes, events, i - 1);
      StepKeepsChain(rules, nodes[i - 1], events[i - 1]);
    }
  }

  /** Between two nodes of a run, work grew by at least one per change of tip. */
  lemma {:induction false} RunGrows(rules: Rules, nodes: seq<Node>, events: seq<Event>, i: nat, j: nat)
    requires Run(rules, nodes, events) && i <= j < |nodes| && Unsaturated(nodes, j)
    ensures nodes[i].chain != [] && nodes[j].chain != []
    ensures TipWeight(nodes[j]) >= TipWeight(nodes[i]) + TipChanges(events[i..j])
    decreases j - i
  {
    hide ChainOk, Allowed, NewChain;
    RunKeepsChain(rules, nodes, events, j);
    ChainNotEmpty(rules, nodes[j].chain);
    if i < j {
      RunGrows(rules, nodes, events, i, j - 1);
      RunKeepsChain(rules, nodes, events, j - 1);
      assert StepAt(rules, nodes, events, j - 1);
      WorkGrows(rules, nodes[j - 1], events[j - 1]);
      assert events[i..j][..j - 1 - i] == events[i..j - 1];
    }
  }

  lemma ChainNotEmpty(rules: Rules, chain: seq<Header>)
    requires ChainOk(rules, chain)
    ensures chain != []
  {
  }

  function TipChanges(events: seq<Event>): nat {
    if events == [] then 0
    else TipChanges(events[..|events| - 1]) + if events[|events| - 1].Finalized? then 0 else 1
  }

  /** A block that stays at or below finality keeps its place unless some adoption had ten times the work. */
  lemma {:induction false} RunFinality(rules: Rules, nodes: seq<Node>, events: seq<Event>, i: nat, j: nat, height: nat)
    requires Run(rules, nodes, events) && i <= j < |nodes| && Unsaturated(nodes, j)
    requires height < |nodes[i].chain|
    requires forall m :: i <= m < j ==> height <= nodes[m].finalized
    ensures Kept(rules, nodes[i].chain, nodes[j].chain, height) || TenTimesBetween(rules, nodes, events, i, j)
    decreases j - i
  {
    hide ChainOk, Allowed, Next, TenTimes, HashOf;
    if i < j {
      RunFinality(rules, nodes, events, i, j - 1, height);
      if Kept(rules, nodes[i].chain, nodes[j - 1].chain, height) {
        StepFinality(rules, nodes, events, j - 1, height);
      }
    }
  }

  lemma StepFinality(rules: Rules, nodes: seq<Node>, events: seq<Event>, m: nat, height: nat)
    requires Run(rules, nodes, events) && m < |events| && Unsaturated(nodes, m + 1)
    requires height < |nodes[m].chain| && height <= nodes[m].finalized
    ensures Kept(rules, nodes[m].chain, nodes[m + 1].chain, height) || TenTimes(rules, nodes[m], events[m])
  {
    hide ChainOk, Allowed, Next, TenTimes, Kept;
    RunKeepsChain(rules, nodes, events, m);
    assert StepAt(rules, nodes, events, m);
    if !Kept(rules, nodes[m].chain, nodes[m + 1].chain, height) {
      FinalityHolds(rules, nodes[m], events[m], height);
    }
  }

  ghost predicate TenTimesBetween(rules: Rules, nodes: seq<Node>, events: seq<Event>, i: nat, j: nat)
    requires i <= j <= |events| && |nodes| == |events| + 1
  {
    exists m :: i <= m < j && nodes[m].chain != [] && TenTimes(rules, nodes[m], events[m])
  }
}
