/**
What the work checks ask of a hash, in plain inequalities between the hash, the
difficulty and 2^256, and what exactly is hashed.
*/
module PowMeaning {
  import opened Arith
  import opened Endian
  import opened Machine
  import opened PowSearch
  import opened YonaHashing

  // ----- targets

  /** The target is the largest number whose product with the difficulty fits in 256 bits. */
  lemma TargetMeaning(difficulty: u256)
    ensures difficulty <= 1 ==> DifficultyToTarget(difficulty) == U256_MAX
    ensures difficulty > 1 ==>
              DifficultyToTarget(difficulty) * difficulty <= U256_MAX < (DifficultyToTarget(difficulty) + 1) * difficulty
  {
    if difficulty > 1 {
      var target := DifficultyToTarget(difficulty);
      DivGalois(target, difficulty, U256_MAX);
      DivGalois(target + 1, difficulty, U256_MAX);
    }
  }

  /** A hash is below the target exactly when its successor times the difficulty fits in 256 bits. */
  lemma BelowTargetIff(h: nat, difficulty: u256)
    requires difficulty > 1
    ensures h < DifficultyToTarget(difficulty) <==> (h + 1) * difficulty <= U256_MAX
  {
    DivGalois(h + 1, difficulty, U256_MAX);
  }

  /** What `verify_pow_raw` accepts, and so what `FindNonce` looks for and `VerifyShare` calls a block. */
  lemma PowOkIff(derive: Bytes -> Digest, headerHash: Bytes, nonce: u64, difficultyRaw: Bytes, height: nat)
    ensures
      var material := headerHash + LittleEndian(nonce, 8);
      var h := FromLittle(if height >= 38_500 then Hash(material) else derive(material));
      var d := FromLittle(Fixed32(difficultyRaw));
      PowOk(derive, headerHash, nonce, difficultyRaw, height) <==>
        |headerHash| == 32 && (if d > 1 then (h + 1) * d <= U256_MAX else h < U256_MAX)
  {
    hide Hash, FromLittle, DifficultyToTarget, Fixed32, LittleEndian;
    var h := Little(PowHash(derive, Material(headerHash, nonce), height));
    var d := Little(Fixed32(difficultyRaw));
    TargetMeaning(d);
    if d > 1 {
      BelowTargetIff(h, d);
    }
  }

  /** Work against a larger difficulty is work against every smaller one. */
  lemma HarderCovers(derive: Bytes -> Digest, headerHash: Bytes, nonce: u64, hard: Bytes, easy: Bytes, height: nat)
    requires 1 <= FromLittle(Fixed32(easy)) <= FromLittle(Fixed32(hard))
    requires PowOk(derive, headerHash, nonce, hard, height)
    ensures PowOk(derive, headerHash, nonce, easy, height)
  {
    hide *;
    PowOkIff(derive, headerHash, nonce, hard, height);
    PowOkIff(derive, headerHash, nonce, easy, height);
    var material := headerHash + LittleEndian(nonce, 8);
    var h := FromLittle(if height >= 38_500 then Hash(material) else derive(material));
    MulMonotone(FromLittle(Fixed32(easy)), FromLittle(Fixed32(hard)), h + 1);
    var d := FromLittle(Fixed32(hard));
    MulMonotone(1, d, h + 1);
  }

  /** A pool share for worker difficulty w: the same inequality below 2^63, and no hash at all from there on. */
  lemma ShareMeaning(h: nat, workerDiff: u64)
    ensures workerDiff <= 1 ==> (h < ShareTarget(workerDiff) <==> h < U256_MAX)
    ensures 1 < workerDiff < 0x8000_0000_0000_0000 ==>
              (h < ShareTarget(workerDiff) <==> (h + 1) * workerDiff <= U256_MAX)
    ensures 0x8000_0000_0000_0000 <= workerDiff ==> !(h < ShareTarget(workerDiff))
  {
    if 1 < workerDiff < 0x8000_0000_0000_0000 {
      DivGalois(h + 1, workerDiff, U256_MAX);
    } else if workerDiff > 1 {
      ShareCoversNetwork(workerDiff, workerDiff);
    }
  }

  // ----- the hashed bytes and the tried nonces

  lemma {:induction false} LittleByte(v: nat, k: nat, i: nat)
    requires i < k
    ensures LittleEndian(v, k)[i] as int == v / Pow256(i) % 256
  {
    if i > 0 {
      LittleByte(v / 256, k - 1, i - 1);
      DivDiv(v, 256, Pow256(i - 1));
    }
  }

  /** Cut or padded with zeros at the end. */
  lemma FixedByte(b: Bytes, i: nat)
    requires i < 32
    ensures Fixed32(b)[i] == if i < |b| then b[i] else 0
  {
    if |b| <= i {
      ZeroByte(32 - |b|, i - |b|);
    }
  }

  /** Forty bytes: the header hash and then the nonce, lowest byte first. */
  lemma MaterialMeaning(headerHash: Bytes, nonce: u64, i: nat)
    requires |headerHash| == 32 && i < 40
    ensures |Material(headerHash, nonce)| == 40
    ensures Material(headerHash, nonce)[i] as int ==
            if i < 32 then headerHash[i] as int else nonce / Pow256(i - 32) % 256
  {
    hide LittleEndian;
    if i >= 32 {
      LittleByte(nonce, 8, i - 32);
    }
  }

  /** No two inputs of a search share their hashed bytes. */
  lemma MaterialOnce(a: Bytes, n: u64, b: Bytes, m: u64)
    requires |a| == 32 && |b| == 32
    ensures Material(a, n) == Material(b, m) <==> a == b && n == m
  {
    hide LittleEndian, FromLittle;
    Powers();
    LittleRoundTrip(n, 8);
    LittleRoundTrip(m, 8);
    assert Material(a, n)[..32] == a && Material(b, m)[..32] == b;
    assert Material(a, n)[32..] == LittleEndian(n, 8) && Material(b, m)[32..] == LittleEndian(m, 8);
  }

  /** The nonces of one search wrap at 2^64 and never repeat. */
  lemma NoncesMeaning(start: u64, i: nat, j: nat)
    requires i < TWO32 && j < TWO32
    ensures NonceAt(start, i) == (start + i) % 0x1_0000_0000_0000_0000
    ensures NonceAt(start, i) == NonceAt(start, j) <==> i == j
  {
  }
}
