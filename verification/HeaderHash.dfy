/**
The node's own header hash and work check, as the rules the header evaluator is stated for:
the 112 packed bytes of a header, hashed, and the hash checked with its nonce.
*/
module HeaderHash {
  import opened Endian
  import opened HeaderChain
  import opened HeaderEvaluation
  import opened Machine
  import opened YonaHashing
  import PowSearch

  /** The hashed fields at their widths on the wire. */
  function FieldsOf(p: Packed): PowSearch.HeaderFields {
    PowSearch.HeaderFields(p.height % (U64_MAX + 1), p.parentHash, p.timestamp, p.txRoot, LittleEndian(p.difficulty, 32))
  }

  function NodeRules(derive: Bytes -> Digest, genesisHash: Bytes): Rules {
    Rules(
      p => PowSearch.PowHash(derive, PowSearch.Packed(FieldsOf(p)), p.height),
      (hash: Bytes, nonce: u64, difficulty: u256, height: nat) => PowSearch.PowOk(derive, hash, nonce, LittleEndian(difficulty, 32), height),
      genesisHash)
  }

  /** The 112 bytes that are hashed. */
  function BytesOf(h: Header): Bytes {
    PowSearch.Packed(FieldsOf(Pack(h)))
  }

  /** No candidate header hashes like a stored one unless their packed bytes are the same. */
  ghost predicate CollisionFree(derive: Bytes -> Digest, headers: seq<Header>, chain: seq<Header>) {
    forall i, j ::
      (0 <= i < |headers| && 0 <= j < |chain| &&
       PowSearch.PowHash(derive, BytesOf(headers[i]), headers[i].height) ==
       PowSearch.PowHash(derive, BytesOf(chain[j]), chain[j].height)) ==>
        BytesOf(headers[i]) == BytesOf(chain[j])
  }

  lemma DifficultyReadsBack(difficulty: u256)
    ensures Fixed32(LittleEndian(difficulty, 32)) == LittleEndian(difficulty, 32)
    ensures PowSearch.Little(Fixed32(LittleEndian(difficulty, 32))) == difficulty
  {
    hide LittleEndian, FromLittle;
    Powers();
    LittleRoundTrip(difficulty, 32);
  }

  /** The work check of the rules compares the hash with the target of the header's difficulty. */
  lemma NodeWork(derive: Bytes -> Digest, genesisHash: Bytes, hash: Bytes, nonce: u64, difficulty: u256, height: nat)
    ensures NodeRules(derive, genesisHash).pow(hash, nonce, difficulty, height) <==>
            (|hash| == 32 &&
             PowSearch.Little(PowSearch.PowHash(derive, PowSearch.Material(hash, nonce), height)) <
             PowSearch.DifficultyToTarget(difficulty))
  {
    hide PowSearch.PowHash, PowSearch.DifficultyToTarget, PowSearch.Material;
    DifficultyReadsBack(difficulty);
  }

  /** Packing loses nothing: equal bytes come from equal packed fields, for heights of 64 bits. */
  lemma PackedOnce(g: Header, h: Header)
    requires g.height <= U64_MAX && h.height <= U64_MAX
    ensures BytesOf(g) == BytesOf(h) <==> Pack(g) == Pack(h)
  {
    hide Fixed32, LittleEndian, PowSearch.Packed;
    PowSearch.PackedAgrees(FieldsOf(Pack(g)), FieldsOf(Pack(h)));
    DifficultyReadsBack(g.difficulty);
    DifficultyReadsBack(h.difficulty);
  }

  ghost predicate Heights64(headers: seq<Header>) {
    forall i :: 0 <= i < |headers| ==> headers[i].height <= U64_MAX
  }

  /** Headers that do not collide as hashed bytes do not collide as headers. */
  lemma NoCollisionFollows(derive: Bytes -> Digest, genesisHash: Bytes, headers: seq<Header>, chain: seq<Header>)
    requires CollisionFree(derive, headers, chain) && Heights64(headers) && Heights64(chain)
    ensures NoCollision(NodeRules(derive, genesisHash), headers, chain)
  {
    hide PowSearch.PowHash, PowSearch.Packed, FieldsOf;
    var rules := NodeRules(derive, genesisHash);
    forall i, j | 0 <= i < |headers| && 0 <= j < |chain| && HashOf(rules, headers[i]) == HashOf(rules, chain[j])
      ensures Pack(headers[i]) == Pack(chain[j])
    {
      PackedOnce(headers[i], chain[j]);
    }
  }

  lemma NodeHashes32(derive: Bytes -> Digest, genesisHash: Bytes)
    ensures Hashes32(NodeRules(derive, genesisHash))
  {
    hide PowSearch.PowHash, PowSearch.Packed;
  }

  /** The evaluator's setting holds of the node's own hash, for a sound chain and a canonical parent. */
  lemma NodeSetting(derive: Bytes -> Digest, genesisHash: Bytes, chain: seq<Header>, headers: seq<Header>)
    requires CollisionFree(derive, headers, chain) && Heights64(headers) && Heights64(chain)
    requires ChainOk(NodeRules(derive, genesisHash), chain) && ParentCanonical(NodeRules(derive, genesisHash), headers, chain)
    ensures Setting(NodeRules(derive, genesisHash), chain, headers)
  {
    hide NodeRules, ChainOk, ParentCanonical, Hashes32, NoCollision, CollisionFree;
    NodeHashes32(derive, genesisHash);
    NoCollisionFollows(derive, genesisHash, headers, chain);
  }

  /** The header hash written out: 112 bytes, from height 38500 on by the node's own function. */
  lemma HashMeaning(derive: Bytes -> Digest, genesisHash: Bytes, h: Header)
    ensures
      var bytes := LittleEndian(h.height % 0x1_0000_0000_0000_0000, 8) + Fixed32(h.parentHash) +
        LittleEndian(h.timestamp, 8) + Fixed32(h.txRoot) + LittleEndian(h.difficulty, 32);
      && |bytes| == 112
      && HashOf(NodeRules(derive, genesisHash), h) == if h.height >= 38_500 then Hash(bytes) else derive(bytes)
  {
    hide Hash, LittleEndian, Fixed32;
    DifficultyReadsBack(h.difficulty);
  }
}
