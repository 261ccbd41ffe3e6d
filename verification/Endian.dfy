/** Fixed-width numbers as bytes, in both byte orders. */
module Endian {
  import opened Machine
  import opened Sequences

  const TWO32 := 0x1_0000_0000

  // ----- big-endian numbers

  function Pow256(k: nat): (p: nat)
    ensures p >= 1
  {
    if k == 0 then 1 else 256 * Pow256(k - 1)
  }

  /** The low k bytes of v, most significant first. */
  function BigEndian(v: nat, k: nat): (b: Bytes)
    ensures |b| == k
  {
    if k == 0 then [] else BigEndian(v / 256, k - 1) + [(v % 256) as byte]
  }

  function FromBigEndian(b: Bytes): nat {
    if b == [] then 0 else 256 * FromBigEndian(b[..|b| - 1]) + b[|b| - 1] as int
  }

  lemma {:induction false} BigEndianRoundTrip(v: nat, k: nat)
    requires v < Pow256(k)
    ensures FromBigEndian(BigEndian(v, k)) == v
  {
    if k > 0 {
      BigEndianRoundTrip(v / 256, k - 1);
      assert BigEndian(v, k)[..k - 1] == BigEndian(v / 256, k - 1);
    }
  }

  lemma {:induction false} Pow256Add(a: nat, b: nat)
    ensures Pow256(a + b) == Pow256(a) * Pow256(b)
  {
    if a > 0 {
      Pow256Add(a - 1, b);
      Regroup256(Pow256(a - 1), Pow256(b));
    }
  }

  lemma Regroup256(p: int, q: int)
    ensures 256 * (p * q) == 256 * p * q
  {
  }

  lemma PowerSum(a: nat, x: nat, b: nat, y: nat)
    requires Pow256(a) == x && Pow256(b) == y
    ensures Pow256(a + b) == x * y
  {
    Pow256Add(a, b);
  }

  lemma One()
    ensures Pow256(1) == 256
  {
    assert Pow256(0) == 1;
  }

  lemma Powers()
    ensures Pow256(4) == TWO32 && Pow256(8) == U64_MAX + 1
    ensures Pow256(32) == U256_MAX + 1 == Pow256(24) * Pow256(8)
  {
    hide Pow256;
    One();
    PowerSum(1, 256, 1, 256);
    PowerSum(2, 0x1_0000, 2, 0x1_0000);
    PowerSum(4, TWO32, 4, TWO32);
    PowerSum(8, U64_MAX + 1, 8, U64_MAX + 1);
    PowerSum(16, 0x1_0000_0000_0000_0000_0000_0000_0000_0000, 16, 0x1_0000_0000_0000_0000_0000_0000_0000_0000);
    PowerSum(24, Pow256(24), 8, U64_MAX + 1);
  }

  lemma Eight(v: u64)
    ensures FromBigEndian(BigEndian(v, 8)) == v
  {
    Powers();
    BigEndianRoundTrip(v, 8);
  }

  lemma Four(v: nat)
    requires v < TWO32
    ensures FromBigEndian(BigEndian(v, 4)) == v
  {
    Powers();
    BigEndianRoundTrip(v, 4);
  }

  lemma {:induction false} FromFits(b: Bytes)
    ensures FromBigEndian(b) < Pow256(|b|)
  {
    if b != [] { FromFits(b[..|b| - 1]); }
  }

  lemma FromEightFits(b: Bytes)
    requires |b| == 8
    ensures FromBigEndian(b) <= U64_MAX
  {
    Powers();
    FromFits(b);
  }

  lemma FromFourFits(b: Bytes)
    requires |b| == 4
    ensures FromBigEndian(b) < TWO32
  {
    Powers();
    FromFits(b);
  }

  /** `binary.BigEndian.Uint64` */
  function Number(b: Bytes): u64
    requires |b| == 8
  {
    FromEightFits(b);
    FromBigEndian(b)
  }

  // ----- little-endian numbers

  /** The low k bytes of v, least significant first (`to_le_bytes`). */
  function LittleEndian(v: nat, k: nat): (b: Bytes)
    ensures |b| == k
  {
    if k == 0 then [] else [(v % 256) as byte] + LittleEndian(v / 256, k - 1)
  }

  /** `from_little_endian` */
  function FromLittle(b: Bytes): nat {
    if b == [] then 0 else b[0] as int + 256 * FromLittle(b[1..])
  }

  lemma {:induction false} LittleRoundTrip(v: nat, k: nat)
    requires v < Pow256(k)
    ensures FromLittle(LittleEndian(v, k)) == v
  {
    if k > 0 {
      LittleRoundTrip(v / 256, k - 1);
      assert LittleEndian(v, k)[1..] == LittleEndian(v / 256, k - 1);
    }
  }

  lemma {:induction false} FromLittleSplit(a: Bytes, b: Bytes)
    ensures FromLittle(a + b) == FromLittle(a) + Pow256(|a|) * FromLittle(b)
    ensures 0 <= FromLittle(a) < Pow256(|a|)
  {
    if a == [] {
      assert a + b == b;
    } else {
      FromLittleSplit(a[1..], b);
      assert (a + b)[1..] == a[1..] + b;
      Scale256(a[0] as int, FromLittle(a[1..]), Pow256(|a| - 1), FromLittle(b));
    }
  }

  lemma Scale256(d: int, g: int, p: int, v: int)
    ensures d + 256 * (g + p * v) == d + 256 * g + 256 * p * v
  {
  }

  /** Reading reversed bytes big-endian is reading them little-endian. */
  lemma {:induction false} ReversedReads(b: Bytes)
    ensures FromBigEndian(Reverse(b)) == FromLittle(b)
  {
    if b != [] {
      ReversedReads(b[1..]);
      assert Reverse(b)[..|b| - 1] == Reverse(b[1..]);
    }
  }
}
