/** 32-bit words: wrapping addition, exclusive or, rotation, and what undoes each. */
module Words {
  import opened Arith
  import opened Endian
  import opened Machine

  type Word = x: int | 0 <= x < TWO32

  /** `wrapping_add` */
  function Add(x: Word, y: Word): Word {
    (x + y) % TWO32
  }

  function Sub(x: Word, y: Word): Word {
    (x - y) % TWO32
  }

  lemma AddSub(x: Word, y: Word)
    ensures Sub(Add(x, y), y) == x && Add(Sub(x, y), y) == x
  {
  }

  /** Bitwise exclusive or of the low k bits. */
  function XorBits(x: nat, y: nat, k: nat): (z: nat)
    ensures z < Pow2(k)
  {
    if k == 0 then 0 else (x % 2 + y % 2) % 2 + 2 * XorBits(x / 2, y / 2, k - 1)
  }

  lemma {:induction false} XorBitsTwice(x: nat, y: nat, k: nat)
    requires x < Pow2(k)
    ensures XorBits(XorBits(x, y, k), y, k) == x
  {
    hide XorBits;
    if k > 0 {
      var z := XorBits(x, y, k);
      XorBitsStep(x, y, k);
      XorBitsTwice(x / 2, y / 2, k - 1);
      XorBitsStep(z, y, k);
      Parity(x % 2, y % 2, z % 2);
      Halves(x, XorBits(z, y, k));
    }
  }

  lemma Parity(a: int, b: int, c: int)
    requires 0 <= a < 2 && 0 <= b < 2 && c == (a + b) % 2
    ensures (c + b) % 2 == a
  {
  }

  lemma Halves(a: int, b: int)
    requires a / 2 == b / 2 && a % 2 == b % 2
    ensures a == b
  {
  }

  lemma XorBitsStep(x: nat, y: nat, k: nat)
    requires k > 0
    ensures XorBits(x, y, k) % 2 == (x % 2 + y % 2) % 2
    ensures XorBits(x, y, k) / 2 == XorBits(x / 2, y / 2, k - 1)
  {
  }

  lemma WordBits()
    ensures Pow2(32) == TWO32
  {
    assert Pow2(8) == 256;
    Pow2Add(8, 8);
    Pow2Add(16, 16);
  }

  function Xor(x: Word, y: Word): Word {
    WordBits();
    XorBits(x, y, 32)
  }

  lemma XorTwice(x: Word, y: Word)
    ensures Xor(Xor(x, y), y) == x
  {
    hide XorBits;
    WordBits();
    XorBitsTwice(x, y, 32);
  }

  /** `rotate_right(n)` */
  function Right(x: Word, n: nat): Word
    requires n <= 32
  {
    WordBits();
    RotationFits(x, n, 32 - n);
    x / Pow2(n) + x % Pow2(n) * Pow2(32 - n)
  }

  function Left(x: Word, n: nat): Word
    requires n <= 32
  {
    Right(x, 32 - n)
  }

  lemma RotationFits(x: nat, n: nat, k: nat)
    requires x < Pow2(n + k)
    ensures 0 <= x / Pow2(n) < Pow2(k)
    ensures 0 <= x / Pow2(n) + x % Pow2(n) * Pow2(k) < Pow2(n + k)
  {
    hide Pow2;
    var a, b := Pow2(n), Pow2(k);
    Pow2Add(n, k);
    DivMod(x, a);
    DivNonNegative(x, a);
    DivGalois(b, a, x);
    MulMonotone(x % a + 1, a, b);
    Distribute(x % a, 1, b);
    MulNonNegative(x % a, b);
  }

  /** Rotating by n and then by k bits, in a word of n + k bits, changes nothing. */
  lemma FullTurn(x: nat, n: nat, k: nat)
    requires x < Pow2(n + k)
    ensures
      var y := x / Pow2(n) + x % Pow2(n) * Pow2(k);
      y / Pow2(k) + y % Pow2(k) * Pow2(n) == x
  {
    hide Pow2;
    var a, b := Pow2(n), Pow2(k);
    RotationFits(x, n, k);
    DivMod(x, a);
    DivUnique(x / a + x % a * b, b, x % a, x / a);
  }

  lemma TurnBack(x: Word, n: nat, k: nat)
    requires n + k == 32
    ensures Right(Right(x, n), k) == x
  {
    hide Pow2;
    WordBits();
    FullTurn(x, n, k);
  }

  /** Rotations undo each other. */
  lemma Turns(x: Word, n: nat)
    requires n <= 32
    ensures Left(Right(x, n), n) == x && Right(Left(x, n), n) == x
  {
    hide Right;
    TurnBack(x, n, 32 - n);
    TurnBack(x, 32 - n, n);
  }

  // ----- words and bytes

  /** `from_le_bytes` */
  function ToWord(b: Bytes): Word
    requires |b| == 4
  {
    b[0] as int + 256 * b[1] as int + 65_536 * b[2] as int + 16_777_216 * b[3] as int
  }

  /** `to_le_bytes` */
  function ToBytes(w: Word): (b: Bytes)
    ensures |b| == 4
  {
    [(w % 256) as byte, (w / 256 % 256) as byte, (w / 65_536 % 256) as byte, (w / 16_777_216) as byte]
  }

  lemma WordRoundTrip(w: Word, b: Bytes)
    requires |b| == 4
    ensures ToWord(ToBytes(w)) == w && ToBytes(ToWord(b)) == b
  {
    BytesOf(w);
    FromBytes(b[0] as int, b[1] as int, b[2] as int, b[3] as int);
  }

  lemma BytesOf(w: Word)
    ensures w % 256 + 256 * (w / 256 % 256) + 65_536 * (w / 65_536 % 256) + 16_777_216 * (w / 16_777_216) == w
  {
  }

  lemma FromBytes(a: int, b: int, c: int, d: int)
    requires 0 <= a < 256 && 0 <= b < 256 && 0 <= c < 256 && 0 <= d < 256
    ensures
      var w := a + 256 * b + 65_536 * c + 16_777_216 * d;
      w % 256 == a && w / 256 % 256 == b && w / 65_536 % 256 == c && w / 16_777_216 == d
  {
    var w := a + 256 * b + 65_536 * c + 16_777_216 * d;
    assert w / 256 == b + 256 * c + 65_536 * d;
    assert w / 65_536 == c + 256 * d;
  }

  function ToWords(b: Bytes, n: nat): (w: seq<Word>)
    requires |b| == 4 * n
    ensures |w| == n
  {
    seq(n, i requires 0 <= i < n => ToWord(b[4 * i..4 * i + 4]))
  }

  function WordBytes(w: seq<Word>): (b: Bytes)
    ensures |b| == 4 * |w|
  {
    if w == [] then [] else WordBytes(w[..|w| - 1]) + ToBytes(w[|w| - 1])
  }
}
