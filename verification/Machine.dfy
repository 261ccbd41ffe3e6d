/**
Machine integers of the node: the Rust and Go code computes on `u64`, `U256` and
bytes. Arithmetic in the model is on unbounded integers; every place where the
source saturates, wraps or truncates says so through one of the functions below.
*/
module Machine {
  import opened Arith

  const U64_MAX: int := 0xFFFF_FFFF_FFFF_FFFF
  const U256_MAX: int :=
    0xFFFF_FFFF_FFFF_FFFF_FFFF_FFFF_FFFF_FFFF_FFFF_FFFF_FFFF_FFFF_FFFF_FFFF_FFFF_FFFF

  type u64 = x: int | 0 <= x <= U64_MAX
  type u256 = x: int | 0 <= x <= U256_MAX

  newtype byte = x: int | 0 <= x < 256
  type Bytes = seq<byte>

  const ZERO32: Bytes :=
    [0, 0, 0, 0, 0, 0, 0, 0, 0, 0, 0, 0, 0, 0, 0, 0, 0, 0, 0, 0, 0, 0, 0, 0, 0, 0, 0, 0, 0, 0, 0, 0]

  function Min(a: int, b: int): int {
    if a <= b then a else b
  }

  function Max(a: int, b: int): int {
    if a <= b then b else a
  }

  /** `u64::saturating_add` */
  function SatAdd64(a: u64, b: u64): u64 {
    if a + b <= U64_MAX then a + b else U64_MAX
  }

  /** `u64::saturating_sub` */
  function SatSub64(a: u64, b: u64): u64 {
    if b <= a then a - b else 0
  }

  /** Release-mode `+` on `u64`. */
  function WrapAdd64(a: u64, b: u64): u64 {
    if a + b <= U64_MAX then a + b else a + b - (U64_MAX + 1)
  }

  /** `U256::saturating_add` and `U256::saturating_mul`. */
  function SatAdd256(a: u256, b: u256): u256 {
    if a + b <= U256_MAX then a + b else U256_MAX
  }

  function SatMul256(a: u256, b: u256): u256 {
    if a == 0 then 0
    else
      MulNonNegative(a, b);
      if a * b <= U256_MAX then a * b else U256_MAX
  }

  /** `U256::saturating_sub` */
  function SatSub256(a: u256, b: u256): u256 {
    if b <= a then a - b else 0
  }

  function Zeros(n: nat): (z: Bytes)
    ensures |z| == n
  {
    if n == 0 then [] else Zeros(n - 1) + [0]
  }

  lemma {:induction false} ZeroByte(n: nat, i: nat)
    requires i < n
    ensures Zeros(n)[i] == 0
  {
    if i < n - 1 {
      ZeroByte(n - 1, i);
    }
  }

  /** A byte string cut or padded with zeros to 32 bytes. */
  function Fixed32(b: Bytes): (f: Bytes)
    ensures |f| == 32
    ensures |b| == 32 ==> f == b
  {
    if |b| >= 32 then b[..32] else b + Zeros(32 - |b|)
  }
}
