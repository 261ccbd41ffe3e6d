/**
When a node adopts a candidate, what its chain is afterwards, and what it counts as final,
in sums of difficulties and heights.
*/
module ForkRules {
  import opened Difficulty
  import opened ForkChoice
  import opened HeaderChain
  import opened HeaderEvaluation
  import opened HeaderRules
  import opened Machine
  import opened Sequences

  /**
  A sound candidate is adopted exactly when its new headers carry more work than the blocks
  they would replace, or ten times as much when those reach down to finality.
  */
  lemma AdoptsIff(rules: Rules, node: Node, headers: seq<Header>, now: nat, k: nat)
    requires Setting(rules, node.chain, headers)
    requires ParentCanonical(rules, headers, node.chain) && SoundCandidate(rules, node.chain, now, headers)
    requires StoredUpTo(rules, node.chain, headers, k)
    ensures headers[0].height - 1 + k < |node.chain|
    ensures
      var fork := headers[0].height - 1 + k;
      var ours, theirs := Sum(Diffs(node.chain[fork + 1..])), Sum(Diffs(headers[k..]));
      Allowed(rules, node, Adopted(headers, now)) <==>
        if k < |headers| && fork < node.finalized && fork < |node.chain| - 1 then theirs >= Min(10 * ours, U256_MAX)
        else theirs > ours
  {
    hide Sum, Judgement, SoundCandidate, StoredUpTo, ChainOk, NoCollision, Hashes32, ParentCanonical;
    VerdictMeaning(rules, node.chain, node.finalized, now, headers, k);
  }

  /** Nothing unsound is ever adopted. */
  lemma UnsoundIsRefused(rules: Rules, node: Node, headers: seq<Header>, now: nat)
    requires ParentCanonical(rules, headers, node.chain) && !SoundCandidate(rules, node.chain, now, headers)
    ensures !Allowed(rules, node, Adopted(headers, now))
  {
    hide Judgement, SoundCandidate, ParentCanonical, Setting;
    UnsoundIsInvalid(rules, node.chain, node.finalized, now, headers);
  }

  lemma {:induction false} ReweighAt(weight: nat, headers: seq<Header>, j: nat)
    requires j < |headers|
    ensures Reweigh(weight, headers)[j] == headers[j].(weight := weight + Work(headers[..j + 1]))
  {
    var last := |headers| - 1;
    if j < last {
      ReweighAt(weight, headers[..last], j);
      assert headers[..last][..j + 1] == headers[..j + 1];
    } else {
      assert headers[..j + 1] == headers;
    }
  }

  /** After an adoption: the old chain up to the fork, then the new headers with the weights they add up to. */
  lemma AdoptedChain(rules: Rules, node: Node, e: Event, j: nat)
    requires ChainOk(rules, node.chain) && Allowed(rules, node, e) && e.Adopted?
    ensures ForkOf(rules, node, e) < |node.chain|
    ensures
      var fork, chain, segment := ForkOf(rules, node, e), Next(rules, node, e).chain, Fresh(rules, node, e);
      && |chain| == fork + 1 + |segment|
      && (j <= fork ==> chain[j] == node.chain[j])
      && (fork < j < |chain| ==>
            chain[j] == segment[j - fork - 1].(weight := node.chain[fork].weight + Sum(Diffs(segment[..j - fork]))))
  {
    hide Judgement, Setting, ChainOk, Work, Sum, Diffs, Reweigh, Fresh, ForkOf;
    ForkInChain(rules, node, e);
    var fork, segment := ForkOf(rules, node, e), Fresh(rules, node, e);
    if fork < j < fork + 1 + |segment| {
      ReweighAt(node.chain[fork].weight, segment, j - fork - 1);
      WorkIsSum(segment[..j - fork]);
    }
  }

  /** After an extension: one more block, with the weight of the tip and its own difficulty. */
  lemma ExtendedChain(rules: Rules, node: Node, e: Event)
    requires ChainOk(rules, node.chain) && Allowed(rules, node, e) && e.Extended?
    ensures node.chain != []
    ensures Next(rules, node, e).chain ==
            node.chain + [e.block.(weight := node.chain[|node.chain| - 1].weight + e.block.difficulty)]
  {
    hide Valid, HashOf;
    SingleWork(e.block);
  }

  /** A block is final once five blocks are on top of it; a recorded height is one that deep, and only rises. */
  lemma FinalityLags(rules: Rules, node: Node, e: Event)
    requires ChainOk(rules, node.chain) && Allowed(rules, node, e)
    ensures node.chain != []
    ensures
      var after := Next(rules, node, e);
      && (!e.Finalized? ==> after.finalized == Max(|after.chain| - 6, 0))
      && (e.Finalized? ==> after.finalized == e.height > node.finalized && e.height <= |after.chain| - 6 && after.chain == node.chain)
  {
    hide Valid, Judgement, Reweigh, ForkOf, Fresh, Setting;
  }
}
