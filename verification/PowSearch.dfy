/**
Proof-of-work: the single check, the parallel nonce search with its fast reject on the top
64 bits, the pool's big-endian check, and the packed header that is hashed first.
*/
module PowSearch {
  import opened Arith
  import opened Endian
  import opened Machine
  import opened Sequences
  import opened Wrappers
  import opened YonaHashing

  function Little(b: Digest): u256 {
    Powers();
    FromLittleSplit(b, []);
    FromLittle(b)
  }

  /** `difficulty_to_target` */
  function DifficultyToTarget(difficulty: u256): (target: u256)
    ensures target > 0
  {
    if difficulty <= 1 then U256_MAX
    else
      DivNonNegative(U256_MAX, difficulty);
      DivGalois(1, difficulty, U256_MAX);
      U256_MAX / difficulty
  }

  function Target(difficultyRaw: Bytes): u256 {
    DifficultyToTarget(Little(Fixed32(difficultyRaw)))
  }

  function Material(headerHash: Bytes, nonce: u64): Bytes {
    headerHash + LittleEndian(nonce, 8)
  }

  /** The proof-of-work hash: Yona from height 38500 on, a library key derivation before. */
  function PowHash(derive: Bytes -> Digest, data: Bytes, height: nat): Digest {
    HashIs32(data);
    if height >= YONA_HEIGHT then Hash(data) else derive(data)
  }

  /** A proof of work is right when its hash, read little-endian, is below the target. */
  predicate PowOk(derive: Bytes -> Digest, headerHash: Bytes, nonce: u64, difficultyRaw: Bytes, height: nat) {
    |headerHash| == 32 && Little(PowHash(derive, Material(headerHash, nonce), height)) < Target(difficultyRaw)
  }

  /** The call of the dispatching hash function. */
  method HashMaterial(derive: Bytes -> Digest, material: Bytes, height: nat) returns (hash: Digest)
    requires |material| <= U64_MAX
    ensures hash == PowHash(derive, material, height)
  {
    hide Hash;
    HashIs32(material);
    hash := CalculateHash(material, height, derive);
  }

  /** `verify_pow_raw`, filling a 40-byte buffer. */
  method VerifyPowRaw(derive: Bytes -> Digest, headerHash: Bytes, nonce: u64, difficultyRaw: Bytes, height: nat)
    returns (ok: bool)
    ensures ok == PowOk(derive, headerHash, nonce, difficultyRaw, height)
  {
    hide PowHash, FromLittle, DifficultyToTarget;
    if |headerHash| != 32 {
      return false;
    }
    var target := DifficultyToTarget(Little(Fixed32(difficultyRaw)));
    var material := headerHash + LittleEndian(nonce, 8);
    var hash := HashMaterial(derive, material, height);
    ok := Little(hash) < target;
  }

  // ----- nonce search

  const TOP := 24

  /** A hash whose top 64 bits exceed the target's is not below the target. */
  lemma FastRejectIsSound(hash: Digest, target: u256)
    requires FromLittle(hash[TOP..]) > target / Pow256(TOP)
    ensures Little(hash) > target
  {
    hide FromLittle, Pow256;
    assert hash == hash[..TOP] + hash[TOP..];
    FromLittleSplit(hash[..TOP], hash[TOP..]);
    var p, high := Pow256(TOP), FromLittle(hash[TOP..]);
    DivGalois(high, p, target);
  }

  /** One candidate of the search: rejected early, or compared in full. */
  method TryNonce(derive: Bytes -> Digest, headerHash: Bytes, n: u64, target: u256, height: nat) returns (found: bool)
    requires |headerHash| == 32
    ensures found == (Little(PowHash(derive, Material(headerHash, n), height)) < target)
  {
    hide Hash, FromLittle, Pow256, Chain;
    var material := headerHash + LittleEndian(n, 8);
    HashIs32(material);
    var hash: Digest;
    if height >= YONA_HEIGHT {
      hash := YonaHash(material);
    } else {
      hash := derive(material);
    }
    var hashTop, targetTop := FromLittle(hash[TOP..]), target / Pow256(TOP);
    if hashTop > targetTop {
      FastRejectIsSound(hash, target);
      return false;
    }
    found := Little(hash) < target;
  }

  /** The i-th nonce from the start, wrapping at 64 bits. */
  function NonceAt(start: u64, i: nat): u64
    requires i < TWO32
  {
    WrapAdd64(start, i)
  }

  function UpTo(n: nat): (s: set<nat>)
    ensures forall i: nat :: i in s <==> i < n
  {
    if n == 0 then {} else UpTo(n - 1) + {n - 1}
  }

  /** `find_nonce`: the candidates are tried in any order and the search may stop at any hit. */
  method FindNonce(derive: Bytes -> Digest, headerHash: Bytes, start: u64, difficultyRaw: Bytes, iterations: nat, height: nat)
    returns (r: Option<u64>)
    requires iterations < TWO32
    ensures r.Some? ==>
              && PowOk(derive, headerHash, r.value, difficultyRaw, height)
              && exists i :: 0 <= i < iterations && r.value == NonceAt(start, i)
    ensures r.None? ==>
              forall i :: 0 <= i < iterations ==> !PowOk(derive, headerHash, NonceAt(start, i), difficultyRaw, height)
  {
    hide Hash, FromLittle, DifficultyToTarget, PowHash, Fixed32, Material;
    if |headerHash| != 32 {
      return None;
    }
    var target := DifficultyToTarget(Little(Fixed32(difficultyRaw)));
    var untried := UpTo(iterations);
    while untried != {}
      invariant untried <= UpTo(iterations)
      invariant forall i :: 0 <= i < iterations && i !in untried ==>
                  !PowOk(derive, headerHash, NonceAt(start, i), difficultyRaw, height)
    {
      var i :| i in untried;
      untried := untried - {i};
      var n := NonceAt(start, i);
      var found := TryNonce(derive, headerHash, n, target, height);
      if found {
        return Some(n);
      }
    }
    return None;
  }

  // ----- the pool

  /** `reverseBytes` */
  method ReverseBytes(b: Bytes) returns (r: Bytes)
    ensures r == Reverse(b)
  {
    var out := new byte[|b|];
    for i := 0 to |b|
      invariant forall j :: 0 <= j < i ==> out[j] == b[|b| - 1 - j]
    {
      out[i] := b[|b| - 1 - i];
    }
    r := out[..];
  }

  /** The pool's conversion to a target, on big-endian numbers. */
  method PoolTarget(difficultyBytes: Bytes) returns (target: int)
    ensures target == Target(difficultyBytes)
  {
    hide FromLittle, FromBigEndian;
    var padded := Fixed32(difficultyBytes);
    var reversed := ReverseBytes(padded);
    var difficulty := FromBigEndian(reversed);
    ReversedReads(padded);
    if difficulty <= 1 {
      return U256_MAX;
    }
    target := U256_MAX / difficulty;
  }

  /** Go's `int64(w)`. */
  function Int64(w: u64): int {
    if w <= 0x7FFF_FFFF_FFFF_FFFF then w else w - (U64_MAX + 1)
  }

  /** The share target: the quotient is Euclidean, as `big.Int.Div` computes it. */
  function ShareTarget(workerDiff: u64): int {
    if workerDiff > 1 then U256_MAX / Int64(workerDiff) else U256_MAX
  }

  /** `VerifyShare` */
  method VerifyShare(derive: Bytes -> Digest, headerHash: Bytes, nonce: u64, difficulty: Bytes, height: nat, workerDiff: u64)
    returns (isPoolShare: bool, isNetworkBlock: bool)
    ensures isNetworkBlock == PowOk(derive, headerHash, nonce, difficulty, height)
    ensures isPoolShare ==
            (|headerHash| == 32 && Little(PowHash(derive, Material(headerHash, nonce), height)) < ShareTarget(workerDiff))
  {
    hide PowHash, FromLittle, FromBigEndian, DifficultyToTarget, Fixed32, LittleEndian;
    if |headerHash| != 32 {
      return false, false;
    }
    var material := headerHash + LittleEndian(nonce, 8);
    var hash := HashMaterial(derive, material, height);
    var reversed := ReverseBytes(hash);
    var hashBig := FromBigEndian(reversed);
    ReversedReads(hash);
    var netTarget := PoolTarget(difficulty);
    var shareTarget := U256_MAX;
    if workerDiff > 1 {
      shareTarget := U256_MAX / Int64(workerDiff);
    }
    isPoolShare, isNetworkBlock := hashBig < shareTarget, hashBig < netTarget;
  }

  /** The share target covers the network target exactly when the worker difficulty stays below 2^63. */
  lemma ShareCoversNetwork(workerDiff: u64, difficulty: u256)
    requires workerDiff <= difficulty
    ensures ShareTarget(workerDiff) >= DifficultyToTarget(difficulty) <==> workerDiff <= 0x7FFF_FFFF_FFFF_FFFF
    ensures workerDiff > 0x7FFF_FFFF_FFFF_FFFF ==> ShareTarget(workerDiff) < 0
  {
    if workerDiff <= 0x7FFF_FFFF_FFFF_FFFF {
      if workerDiff > 1 {
        DivAntitone(U256_MAX, workerDiff, difficulty);
      } else if difficulty > 1 {
        DivNonNegative(U256_MAX, difficulty);
      }
    } else {
      NegativeQuotient(U256_MAX, Int64(workerDiff));
    }
  }

  lemma NegativeQuotient(x: int, d: int)
    requires 0 < x && d < 0 && -d <= x
    ensures x / d < 0
  {
    var q := x / d;
    assert x == q * d + x % d && 0 <= x % d < -d;
    if q >= 0 { MulMonotone(d, 0, q); }
  }

  predicate IsBelow(h: u256, target: int) {
    h < target
  }

  /** A network block is a pool share, for every hash, exactly when the worker difficulty stays below 2^63. */
  lemma NetworkBlockIsShare(workerDiff: u64, difficulty: u256)
    requires workerDiff <= difficulty
    ensures (forall h: u256 :: IsBelow(h, DifficultyToTarget(difficulty)) ==> IsBelow(h, ShareTarget(workerDiff))) <==>
            workerDiff <= 0x7FFF_FFFF_FFFF_FFFF
  {
    hide DifficultyToTarget, ShareTarget;
    ShareCoversNetwork(workerDiff, difficulty);
    assert IsBelow(0, DifficultyToTarget(difficulty));
  }

  // ----- the packed header

  datatype HeaderFields = HeaderFields(height: u64, parent: Bytes, timestamp: u64, root: Bytes, difficulty: Bytes)

  function Packed(f: HeaderFields): Bytes {
    LittleEndian(f.height, 8) + Fixed32(f.parent) + LittleEndian(f.timestamp, 8) + Fixed32(f.root) + Fixed32(f.difficulty)
  }

  lemma {:induction false} ZerosSplit(a: nat, b: nat)
    ensures Zeros(a + b) == Zeros(a) + Zeros(b)
  {
    if b > 0 { ZerosSplit(a, b - 1); }
  }

  /** `copy_from_slice` after the part of a zeroed buffer that is filled already. */
  method CopyInto(buf: array<byte>, ghost done: Bytes, at: nat, src: Bytes)
    requires |done| == at && at + |src| <= buf.Length && buf[..] == done + Zeros(buf.Length - at)
    modifies buf
    ensures buf[..] == done + src + Zeros(buf.Length - at - |src|)
  {
    ghost var n := buf.Length - at;
    ZerosSplit(|src|, n - |src|);
    ghost var rest := Zeros(n - |src|);
    assert buf[at + |src|..] == buf[..][at + |src|..] == rest;
    assert buf[..at] == buf[..][..at] == done;
    for i := 0 to |src|
      invariant forall k :: 0 <= k < at ==> buf[k] == done[k]
      invariant forall k :: 0 <= k < i ==> buf[at + k] == src[k]
      invariant forall k :: at + |src| <= k < buf.Length ==> buf[k] == rest[k - at - |src|]
    {
      buf[at + i] := src[i];
    }
    assert buf[..] == done + src + rest;
  }

  /** Copying a byte string into the next 32 bytes, cut to 32; a shorter one leaves zeros behind it. */
  method CopyFixed(buf: array<byte>, ghost done: Bytes, at: nat, src: Bytes)
    requires |done| == at && at + 32 <= buf.Length && buf[..] == done + Zeros(buf.Length - at)
    modifies buf
    ensures buf[..] == done + Fixed32(src) + Zeros(buf.Length - at - 32)
  {
    hide Zeros;
    var length := if |src| < 32 then |src| else 32;
    CopyInto(buf, done, at, src[..length]);
    ZerosSplit(32 - length, buf.Length - at - 32);
    PadZeros(src[..length], buf.Length - at - 32);
    FixedIs(src, length);
    Regroup(done, src[..length], Zeros(32 - length), Zeros(buf.Length - at - 32));
  }

  lemma PadZeros(part: Bytes, n: nat)
    requires |part| <= 32
    ensures Zeros(32 - |part| + n) == Zeros(32 - |part|) + Zeros(n)
  {
    ZerosSplit(32 - |part|, n);
  }

  lemma FixedIs(src: Bytes, length: nat)
    requires length == if |src| < 32 then |src| else 32
    ensures Fixed32(src) == src[..length] + Zeros(32 - length)
  {
    if length == 32 { assert Zeros(0) == []; }
  }

  lemma Regroup(a: Bytes, b: Bytes, c: Bytes, d: Bytes)
    ensures a + b + (c + d) == a + (b + c) + d
  {
  }

  /** `pack_header_v112`: five fields in a 112-byte buffer, each byte string cut or padded to 32. */
  method PackHeaderV112(f: HeaderFields) returns (packed: Bytes)
    ensures packed == Packed(f) && |packed| == 112
  {
    hide Fixed32, LittleEndian, Zeros;
    var buf := new byte[112](_ => 0);
    AllZero(buf[..]);
    CopyInto(buf, [], 0, LittleEndian(f.height, 8));
    ghost var done := LittleEndian(f.height, 8);
    assert [] + done == done;
    CopyFixed(buf, done, 8, f.parent);
    done := done + Fixed32(f.parent);
    CopyInto(buf, done, 40, LittleEndian(f.timestamp, 8));
    done := done + LittleEndian(f.timestamp, 8);
    CopyFixed(buf, done, 48, f.root);
    done := done + Fixed32(f.root);
    CopyFixed(buf, done, 80, f.difficulty);
    AllZero([]);
    packed := buf[..];
  }

  lemma {:induction false} AllZero(b: Bytes)
    requires forall i :: 0 <= i < |b| ==> b[i] == 0
    ensures b == Zeros(|b|)
    ensures forall a: Bytes :: a + Zeros(0) == a
  {
    if b != [] { AllZero(b[..|b| - 1]); }
    assert Zeros(0) == [];
  }

  /** Two headers pack to the same bytes exactly when their fields agree at their fixed widths. */
  lemma PackedAgrees(f: HeaderFields, g: HeaderFields)
    ensures Packed(f) == Packed(g) <==>
            && f.height == g.height && f.timestamp == g.timestamp && Fixed32(f.parent) == Fixed32(g.parent)
            && Fixed32(f.root) == Fixed32(g.root) && Fixed32(f.difficulty) == Fixed32(g.difficulty)
  {
    hide Fixed32, LittleEndian;
    if Packed(f) == Packed(g) {
      Fields(f);
      Fields(g);
    }
  }

  /** Every field is read back from its place. */
  lemma Fields(f: HeaderFields)
    ensures |Packed(f)| == 112
    ensures FromLittle(Packed(f)[..8]) == f.height && FromLittle(Packed(f)[40..48]) == f.timestamp
    ensures Packed(f)[8..40] == Fixed32(f.parent) && Packed(f)[48..80] == Fixed32(f.root)
    ensures Packed(f)[80..] == Fixed32(f.difficulty)
  {
    hide Fixed32, LittleEndian, FromLittle;
    Powers();
    LittleRoundTrip(f.height, 8);
    LittleRoundTrip(f.timestamp, 8);
    assert Packed(f)[..8] == LittleEndian(f.height, 8);
    assert Packed(f)[40..48] == LittleEndian(f.timestamp, 8);
  }
}
