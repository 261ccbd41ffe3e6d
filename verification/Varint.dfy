/**
Base-128 varints (Protocol Buffers Encoding guide, section "Base 128 Varints"): the
hand-written encoder and decoder of the peer-to-peer layer. Values are 64-bit; the bits a
byte contributes do not overlap, so the shifted `|=` of the source is an addition mod 2^64.
*/
module Varint {
  import opened Arith
  import opened Machine

  const TWO64 := U64_MAX + 1

  /** Sum of the 7-bit groups, lowest first. */
  function Groups(b: Bytes): nat {
    if b == [] then 0 else (b[0] as int) % 128 + 128 * Groups(b[1..])
  }

  function Value(b: Bytes): u64 {
    Groups(b) % TWO64
  }

  /** At most ten bytes, exactly the last one without the continuation bit. */
  predicate IsVarint(b: Bytes) {
    1 <= |b| <= 10 && b[|b| - 1] < 128 && forall i :: 0 <= i < |b| - 1 ==> b[i] >= 128
  }

  function Encode(v: nat): (b: Bytes) {
    if v < 128 then [v as byte] else [(v % 128 + 128) as byte] + Encode(v / 128)
  }

  function Pow128(k: nat): (p: nat)
    ensures p >= 1
  {
    if k == 0 then 1 else 128 * Pow128(k - 1)
  }

  lemma {:induction false} GroupsSnoc(b: Bytes, x: byte)
    ensures Groups(b + [x]) == Groups(b) + (x as int) % 128 * Pow128(|b|)
  {
    if b != [] {
      GroupsSnoc(b[1..], x);
      assert (b + [x])[1..] == b[1..] + [x];
      Scale(Groups(b[1..]), (x as int) % 128, Pow128(|b| - 1));
    }
  }

  lemma Scale(g: nat, d: nat, p: nat)
    ensures 128 * (g + d * p) == 128 * g + d * (128 * p)
  {
  }

  /** `decodeVarint`: the value and the number of bytes read, 0 bytes when no byte ends it. */
  method DecodeVarint(buf: Bytes) returns (v: u64, n: nat)
    ensures n == 0 ==> v == 0 && forall i :: 0 <= i < |buf| ==> buf[i] >= 128
    ensures n > 0 ==>
              && n <= |buf| && buf[n - 1] < 128 && (forall i :: 0 <= i < n - 1 ==> buf[i] >= 128)
              && v == Value(buf[..n])
  {
    hide Groups;
    var sum, weight := 0, 1;
    GroupsOfNothing();
    for i := 0 to |buf|
      invariant forall j :: 0 <= j < i ==> buf[j] >= 128
      invariant weight == Pow128(i) && sum == Groups(buf[..i]) % TWO64
    {
      var b := buf[i];
      assert buf[..i + 1] == buf[..i] + [b];
      GroupsSnoc(buf[..i], b);
      ModAdd(Groups(buf[..i]), (b as int) % 128 * weight, TWO64);
      sum := (sum + (b as int) % 128 * weight) % TWO64;
      if b < 128 {
        return sum, i + 1;
      }
      weight := 128 * weight;
    }
    return 0, 0;
  }

  lemma GroupsOfNothing()
    ensures Groups([]) == 0
  {
  }

  /** A varint in front of other bytes is what the decoder reads. */
  lemma ReadsFirst(buf: Bytes, t: Bytes, rest: Bytes, v: u64, n: nat)
    requires buf == t + rest && IsVarint(t)
    requires n == 0 ==> forall i :: 0 <= i < |buf| ==> buf[i] >= 128
    requires n > 0 ==>
               n <= |buf| && buf[n - 1] < 128 && (forall i :: 0 <= i < n - 1 ==> buf[i] >= 128) && v == Value(buf[..n])
    ensures n == |t| && v == Value(t) && buf[n..] == rest
  {
    hide Value;
    assert buf[|t| - 1] == t[|t| - 1];
    assert forall i :: 0 <= i < |t| ==> buf[i] == t[i];
    assert n == |t|;
    assert buf[..|t|] == t;
  }

  /** `encodeVarintBytes` on a ten-byte buffer. */
  method EncodeVarintBytes(value: u64) returns (b: Bytes)
    ensures b == Encode(value)
  {
    hide Encode;
    var buf := new byte[10];
    var i: nat := 0;
    var v := value;
    EncodeLength(value);
    ghost var done: Bytes := [];
    while v >= 128
      invariant i == |done| && 0 <= v <= U64_MAX && |Encode(v)| <= 10 - i
      invariant buf[..i] == done && Encode(value) == done + Encode(v)
      decreases v
    {
      EncodeStep(v);
      EncodeRoom(v / 128);
      var b := (v % 128 + 128) as byte;
      Regroup(done, b, Encode(v / 128));
      buf[i] := b;
      done := done + [b];
      v := v / 128;
      i := i + 1;
    }
    EncodeStep(v);
    buf[i] := v as byte;
    b := buf[..i + 1];
    assert b == done + [v as byte];
  }

  lemma EncodeRoom(v: nat)
    ensures |Encode(v)| >= 1
  {
  }

  lemma Regroup(a: Bytes, x: byte, b: Bytes)
    ensures a + ([x] + b) == (a + [x]) + b
  {
  }

  lemma EncodeStep(v: nat)
    ensures Encode(v) == if v < 128 then [v as byte] else [(v % 128 + 128) as byte] + Encode(v / 128)
    ensures |Encode(v)| >= 1
  {
  }

  lemma {:induction false} EncodeShort(v: nat, k: nat)
    requires k >= 1 && v < Pow128(k)
    ensures |Encode(v)| <= k
  {
    if v >= 128 {
      EncodeShort(v / 128, k - 1);
    }
  }

  lemma EncodeLength(v: u64)
    ensures |Encode(v)| <= 10
  {
    var p := Pow128(8);
    assert p == 128 * Pow128(7) && Pow128(7) == 128 * Pow128(6) && Pow128(6) == 128 * Pow128(5);
    assert Pow128(5) == 128 * Pow128(4) && Pow128(4) == 128 * Pow128(3) && Pow128(3) == 128 * Pow128(2);
    assert Pow128(2) == 128 * Pow128(1) && Pow128(1) == 128 * Pow128(0);
    assert Pow128(9) == 128 * p && Pow128(10) == 128 * Pow128(9);
    EncodeShort(v, 10);
  }

  lemma {:induction false} EncodeShape(v: nat)
    ensures Groups(Encode(v)) == v
    ensures Encode(v) != [] && Encode(v)[|Encode(v)| - 1] < 128
    ensures forall i :: 0 <= i < |Encode(v)| - 1 ==> Encode(v)[i] >= 128
  {
    if v >= 128 {
      EncodeShape(v / 128);
      assert Encode(v)[1..] == Encode(v / 128);
    } else {
      assert Encode(v) == [v as byte];
      assert Encode(v)[1..] == [];
    }
  }

  /** Decoding what was encoded, for every 64-bit value. */
  lemma VarintRoundTrip(v: u64)
    ensures IsVarint(Encode(v)) && Value(Encode(v)) == v
  {
    hide Encode, Groups;
    EncodeShape(v);
    EncodeLength(v);
  }

  /** Encoding what was decoded, for every varint without a superfluous last byte. */
  lemma {:induction false} VarintCanonical(b: Bytes)
    requires b != [] && b[|b| - 1] < 128 && forall i :: 0 <= i < |b| - 1 ==> b[i] >= 128
    ensures Encode(Groups(b)) == b <==> |b| == 1 || b[|b| - 1] > 0
  {
    if |b| == 1 {
      assert b[1..] == [];
    } else {
      VarintCanonical(b[1..]);
      EncodeOfGroups(b);
      if Encode(Groups(b)) == b && b[|b| - 1] == 0 {
        ZeroEnd(b);
      }
    }
  }

  lemma EncodeOfGroups(b: Bytes)
    requires |b| > 1 && b[0] >= 128
    ensures Groups(b[1..]) > 0 ==> Encode(Groups(b)) == [b[0]] + Encode(Groups(b[1..]))
    ensures Groups(b[1..]) == 0 ==> |Encode(Groups(b))| == 1
    ensures b == [b[0]] + b[1..]
  {
    var g, low := Groups(b[1..]), (b[0] as int) % 128;
    assert Groups(b) == low + 128 * g;
    DivUnique(Groups(b), 128, g, low);
  }

  /** A varint longer than one byte that ends in zero is not what the encoder writes. */
  lemma ZeroEnd(b: Bytes)
    requires |b| > 1 && b[|b| - 1] == 0
    ensures Encode(Groups(b)) != b
  {
    EncodeEnds(Groups(b));
  }

  lemma {:induction false} EncodeEnds(v: nat)
    ensures Encode(v) != [] && (|Encode(v)| > 1 ==> Encode(v)[|Encode(v)| - 1] > 0)
  {
    if v >= 128 { EncodeEnds(v / 128); }
  }
}
