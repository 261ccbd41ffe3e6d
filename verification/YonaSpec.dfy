/**
The published description of the Yona hash, bit by bit: exclusive or and rotation on bits,
the eight equations of G, columns and diagonals, and the chain of blocks with its flags.
*/
module YonaSpec {
  import opened Arith
  import opened Endian
  import opened Machine
  import opened Words
  import opened Yona
  import opened YonaHashing

  // ----- words as bits

  function Bit(x: nat, i: nat): nat {
    DivNonNegative(x, Pow2(i));
    x / Pow2(i) % 2
  }

  lemma BitStep(x: nat, i: nat)
    requires i > 0
    ensures Bit(x, i) == Bit(x / 2, i - 1)
  {
    DivDiv(x, 2, Pow2(i - 1));
  }

  lemma {:induction false} XorBitsAt(x: nat, y: nat, k: nat, i: nat)
    requires i < k
    ensures Bit(XorBits(x, y, k), i) == (Bit(x, i) + Bit(y, i)) % 2
  {
    hide Bit, XorBits;
    XorBitsStep(x, y, k);
    if i == 0 {
      LowBit(x);
      LowBit(y);
      LowBit(XorBits(x, y, k));
    } else {
      BitStep(x, i);
      BitStep(y, i);
      BitStep(XorBits(x, y, k), i);
      XorBitsAt(x / 2, y / 2, k - 1, i - 1);
    }
  }

  lemma LowBit(x: nat)
    ensures Bit(x, 0) == x % 2
  {
  }

  /** Exclusive or, bit by bit. */
  lemma XorBit(x: Word, y: Word, i: nat)
    requires i < 32
    ensures Bit(Xor(x, y), i) == (Bit(x, i) + Bit(y, i)) % 2
  {
    hide XorBits, Bit;
    WordBits();
    XorBitsAt(x, y, 32, i);
  }

  lemma HighBits(x: nat, n: nat, i: nat)
    ensures 0 <= x / Pow2(n) && Bit(x / Pow2(n), i) == Bit(x, n + i)
  {
    hide Pow2;
    DivNonNegative(x, Pow2(n));
    DivDiv(x, Pow2(n), Pow2(i));
    Pow2Add(n, i);
  }

  /** A multiple of 2^(i+1) does not change bit i. */
  lemma BitOfSum(x: nat, y: nat, i: nat)
    ensures 0 <= y * (2 * Pow2(i)) && Bit(x + y * (2 * Pow2(i)), i) == Bit(x, i)
  {
    hide Pow2;
    MulNonNegative(y, 2 * Pow2(i));
    assert x + y * (2 * Pow2(i)) == x + (2 * y) * Pow2(i);
    DivShift(x, Pow2(i), 2 * y);
    ModShift(x / Pow2(i), 2, y);
  }

  /** Rotating right by n moves bit i + n to bit i, around the word. */
  lemma RightBit(x: Word, n: nat, i: nat)
    requires n <= 32 && i < 32
    ensures Bit(Right(x, n), i) == Bit(x, (i + n) % 32)
  {
    hide Pow2, Bit;
    WordBits();
    var k := 32 - n;
    DivMod(x, Pow2(n));
    DivNonNegative(x, Pow2(n));
    if i < k {
      RightLow(x, n, i);
    } else {
      RightHigh(x, n, i - k);
    }
  }

  lemma RightLow(x: Word, n: nat, i: nat)
    requires n <= 32 && i < 32 - n
    ensures Bit(Right(x, n), i) == Bit(x, i + n)
  {
    hide Pow2, Bit;
    WordBits();
    var k, low := 32 - n, x % Pow2(n);
    DivMod(x, Pow2(n));
    HighBits(x, n, i);
    Pow2Add(k - i - 1, i);
    Pow2Double(i);
    Pow2Add(k - i - 1, i + 1);
    MulNonNegative(low, Pow2(k - i - 1));
    BitOfSum(x / Pow2(n), low * Pow2(k - i - 1), i);
    MulAssociates(low, Pow2(k - i - 1), 2 * Pow2(i));
  }

  lemma Pow2Double(i: nat)
    ensures Pow2(i + 1) == 2 * Pow2(i)
  {
  }

  lemma MulAssociates(a: int, b: int, c: int)
    ensures a * b * c == a * (b * c)
  {
  }

  lemma RightHigh(x: Word, n: nat, j: nat)
    requires j < n <= 32
    ensures Bit(Right(x, n), 32 - n + j) == Bit(x, j)
  {
    hide Pow2, Bit;
    WordBits();
    var k := 32 - n;
    DivMod(x, Pow2(n));
    RotationFits(x, n, k);
    HighBits(Right(x, n), k, j);
    DivUnique(Right(x, n), Pow2(k), x % Pow2(n), x / Pow2(n));
    Pow2Add(n - j - 1, j + 1);
    Pow2Double(j);
    DivNonNegative(x, Pow2(n));
    MulNonNegative(x / Pow2(n), Pow2(n - j - 1));
    BitOfSum(x % Pow2(n), x / Pow2(n) * Pow2(n - j - 1), j);
    MulAssociates(x / Pow2(n), Pow2(n - j - 1), 2 * Pow2(j));
  }

  // ----- constants

  /** The first 32 fraction bits of the square root of p. */
  predicate RootBits(p: nat, whole: nat, bits: nat) {
    var root := whole * TWO32 + bits;
    bits < TWO32 && root * root <= p * TWO32 * TWO32 < (root + 1) * (root + 1)
  }

  /** The initial key comes from the square roots of the first eight primes, the mask spells YONA. */
  lemma Constants()
    ensures RootBits(2, 1, IV[0]) && RootBits(3, 1, IV[1]) && RootBits(5, 2, IV[2]) && RootBits(7, 2, IV[3])
    ensures RootBits(11, 3, IV[4]) && RootBits(13, 3, IV[5]) && RootBits(17, 4, IV[6]) && RootBits(19, 4, IV[7])
    ensures ToBytes(Y_KEY) == ['A' as byte, 'N' as byte, 'O' as byte, 'Y' as byte]
  {
  }

  // ----- mixing

  /** The eight equations of G. */
  lemma GEquations(a: Word, b: Word, c: Word, d: Word, x: Word, y: Word)
    ensures
      var a1 := (a + b + Xor(x, 0x594F4E41)) % 0x1_0000_0000;
      var d1 := Right(Xor(d, a1), 17);
      var c1 := (c + d1) % 0x1_0000_0000;
      var b1 := Right(Xor(b, c1), 13);
      var a2 := (a1 + b1 + Xor(y, 0x594F4E41)) % 0x1_0000_0000;
      var d2 := Right(Xor(d1, a2), 9);
      var c2 := (c1 + d2) % 0x1_0000_0000;
      var b2 := Right(Xor(b1, c2), 5);
      G(Quad(a, b, c, d), x, y) == Quad(a2, b2, c2, d2)
  {
    hide Xor, Right;
    ThreeTerms(a, b, Xor(x, Y_KEY));
    var h := Half(Quad(a, b, c, d), x, 17, 13);
    ThreeTerms(h.a, h.b, Xor(y, Y_KEY));
  }

  lemma ThreeTerms(a: Word, b: Word, k: Word)
    ensures Add(Add(a, b), k) == (a + b + k) % 0x1_0000_0000
  {
  }

  function Column(s: State, m: State, i: nat): Quad
    requires i < 4
  {
    G(Quad(s[i], s[4 + i], s[8 + i], s[12 + i]), m[2 * i], m[2 * i + 1])
  }

  /** A round: four columns, then the four diagonals of the mixed columns. */
  lemma RoundMeaning(s: State, m: State)
    ensures
      var p, q, r, t, u := Column(s, m, 0), Column(s, m, 1), Column(s, m, 2), Column(s, m, 3), Steps(s, m, 8);
      && Quad(u[0], u[5], u[10], u[15]) == G(Quad(p.a, q.b, r.c, t.d), m[8], m[9])
      && Quad(u[1], u[6], u[11], u[12]) == G(Quad(q.a, r.b, t.c, p.d), m[10], m[11])
      && Quad(u[2], u[7], u[8], u[13]) == G(Quad(r.a, t.b, p.c, q.d), m[12], m[13])
      && Quad(u[3], u[4], u[9], u[14]) == G(Quad(t.a, p.b, q.c, r.d), m[14], m[15])
  {
    hide G, Steps, Column;
    FirstHalf(s, m);
    SecondHalf(s, m);
  }

  lemma FirstHalf(s: State, m: State)
    ensures
      var t := Steps(s, m, 4);
      && Quad(t[0], t[4], t[8], t[12]) == Column(s, m, 0) && Quad(t[1], t[5], t[9], t[13]) == Column(s, m, 1)
      && Quad(t[2], t[6], t[10], t[14]) == Column(s, m, 2) && Quad(t[3], t[7], t[11], t[15]) == Column(s, m, 3)
  {
    hide G, Steps;
    StepIs(s, m, 1);
    StepIs(s, m, 2);
    StepIs(s, m, 3);
    StepIs(s, m, 4);
    NoSteps(s, m);
  }

  lemma SecondHalf(s: State, m: State)
    ensures
      var t, u := Steps(s, m, 4), Steps(s, m, 8);
      && Quad(u[0], u[5], u[10], u[15]) == G(Quad(t[0], t[5], t[10], t[15]), m[8], m[9])
      && Quad(u[1], u[6], u[11], u[12]) == G(Quad(t[1], t[6], t[11], t[12]), m[10], m[11])
      && Quad(u[2], u[7], u[8], u[13]) == G(Quad(t[2], t[7], t[8], t[13]), m[12], m[13])
      && Quad(u[3], u[4], u[9], u[14]) == G(Quad(t[3], t[4], t[9], t[14]), m[14], m[15])
  {
    hide G, Steps;
    StepIs(s, m, 5);
    StepIs(s, m, 6);
    StepIs(s, m, 7);
    StepIs(s, m, 8);
  }

  lemma NoSteps(s: State, m: State)
    ensures Steps(s, m, 0) == s
  {
  }

  lemma StepIs(s: State, m: State, k: nat)
    requires 0 < k <= 8
    ensures
      var before, l := Steps(s, m, k - 1), LaneOf(k - 1);
      var q := G(Quad(before[l.a], before[l.b], before[l.c], before[l.d]), m[2 * k - 2], m[2 * k - 1]);
      Steps(s, m, k) == before[l.a := q.a][l.b := q.b][l.c := q.c][l.d := q.d]
  {
    hide G, LaneOf;
  }

  // ----- compression and chaining

  /** What is mixed, and how the mixed state becomes the output. */
  lemma CompressMeaning(cv: Key, m: State, counter: u64, blockLen: Word, flags: Word, i: nat)
    requires i < 8
    ensures
      var start := cv + [0x6A09E667, 0xBB67AE85, 0x3C6EF372, 0xA54FF53A] +
        [counter % 0x1_0000_0000, counter / 0x1_0000_0000, blockLen, flags];
      var s, out := Mix(start, m, 7), Compress(cv, m, counter, blockLen, flags);
      out[i] == Xor(s[i], s[i + 8]) && out[i + 8] == Xor(s[i + 8], cv[i])
  {
    hide Mix, Xor;
    assert IV[..4] == [0x6A09E667, 0xBB67AE85, 0x3C6EF372, 0xA54FF53A];
  }

  /** Round k + 1 of the mixing uses the message permuted k times. */
  lemma RoundsMeaning(s: State, m: State, k: nat)
    ensures Mix(s, m, 0) == s && Mix(s, m, k + 1) == Steps(Mix(s, m, k), Schedule(m, k), 8)
    ensures Schedule(m, 0) == m
    ensures
      var w := Schedule(m, k);
      Schedule(m, k + 1) ==
      [w[2], w[6], w[3], w[10], w[7], w[0], w[4], w[13], w[1], w[11], w[12], w[5], w[9], w[14], w[15], w[8]]
  {
    hide Steps;
  }

  /** Block i of the data: 64 bytes, the last one shorter and filled with zeros. */
  function BlockAt(data: Bytes, i: nat): (b: Bytes)
    requires 64 * i <= |data|
    ensures |b| <= 64
  {
    data[64 * i..Min(64 * i + 64, |data|)]
  }

  /** The words of block i: four bytes each, lowest first. */
  predicate WordsOfBlock(data: Bytes, i: nat, m: State)
    requires 64 * i <= |data|
  {
    forall j :: 0 <= j < 64 ==>
      Bytes4(m[j / 4])[j % 4] == if j < |BlockAt(data, i)| then BlockAt(data, i)[j] else 0
  }

  function Bytes4(w: Word): (b: Bytes)
    ensures |b| == 4
  {
    [(w % 256) as byte, (w / 256 % 256) as byte, (w / 65_536 % 256) as byte, (w / 16_777_216) as byte]
  }

  /** 1 marks the first block, 10 the last one. */
  function FlagsOf(i: nat, blocks: nat): Word {
    (if i == 0 then 1 else 0) + (if i + 1 == blocks then 10 else 0)
  }

  /** Keys chained block by block, from the initial key on. */
  ghost predicate Chained(data: Bytes, keys: seq<Key>, words: seq<State>) {
    && |words| == (|data| + 63) / 64 && |keys| == |words| + 1 && keys[0] == IV
    && forall i :: 0 <= i < |words| ==> WordsOfBlock(data, i, words[i]) && LinkAt(data, keys, words, i)
  }

  ghost predicate LinkAt(data: Bytes, keys: seq<Key>, words: seq<State>, i: nat)
    requires i < |words| && |keys| == |words| + 1 && 64 * i <= |data|
  {
    keys[i + 1] == Compress(keys[i], words[i], 0, |BlockAt(data, i)|, FlagsOf(i, |words|))[..8]
  }

  lemma WordsUnique(data: Bytes, i: nat, m: State)
    requires 64 * i <= |data| && WordsOfBlock(data, i, m)
    ensures m == Words64(BlockAt(data, i))
  {
    var b := BlockAt(data, i);
    var padded := b + Zeros(64 - |b|);
    forall k | 0 <= k < 16 ensures m[k] == Words64(b)[k] {
      forall j | 0 <= j < 4 ensures ToBytes(m[k])[j] == padded[4 * k..4 * k + 4][j] {
        var at := 4 * k + j;
        assert at / 4 == k && at % 4 == j;
        assert Bytes4(m[at / 4])[at % 4] == if at < |b| then b[at] else 0;
        if at >= |b| { ZeroByte(64 - |b|, at - |b|); }
      }
      assert ToBytes(m[k]) == padded[4 * k..4 * k + 4];
      WordRoundTrip(m[k], padded[4 * k..4 * k + 4]);
    }
  }

  lemma {:induction false} ChainFrom(data: Bytes, keys: seq<Key>, words: seq<State>, i: nat)
    requires data != [] && Chained(data, keys, words) && i < |words|
    ensures Chain(keys[i], data[64 * i..], i == 0) == keys[|words|]
    decreases |words| - i
  {
    hide Compress, Words64, WordsOfBlock, Chain, NextKey, BlockAt;
    assert WordsOfBlock(data, i, words[i]) && LinkAt(data, keys, words, i);
    WordsUnique(data, i, words[i]);
    ChainStep(keys[i], data, 64 * i, i == 0);
    BlockIs(data, i);
    NextKeyIs(keys[i], words[i], |BlockAt(data, i)|, FlagsOf(i, |words|));
    if i + 1 < |words| {
      ChainFrom(data, keys, words, i + 1);
    }
  }

  lemma BlockIs(data: Bytes, i: nat)
    requires 64 * i < |data|
    ensures |data[64 * i..]| <= 64 ==> BlockAt(data, i) == data[64 * i..64 * i + |data[64 * i..]|]
    ensures |data[64 * i..]| > 64 ==> BlockAt(data, i) == data[64 * i..64 * i + 64]
  {
  }

  /** The hash of non-empty data is the last key of its chain, as bytes. */
  lemma HashIsChain(data: Bytes, keys: seq<Key>, words: seq<State>)
    requires data != [] && Chained(data, keys, words)
    ensures Hash(data) == WordBytes(keys[|words|]) && |Hash(data)| == 32
  {
    hide Chain, LinkAt, WordsOfBlock;
    assert data[64 * 0..] == data;
    ChainFrom(data, keys, words, 0);
    HashIs(data);
  }

  function BlockCount(data: Bytes): (n: nat)
    ensures n == (|data| + 63) / 64
  {
    (|data| + 63) / 64
  }

  ghost function KeysUpTo(data: Bytes, words: seq<State>, k: nat): (keys: seq<Key>)
    requires k <= |words| == BlockCount(data)
    ensures |keys| == k + 1
  {
    if k == 0 then [IV]
    else
      var front := KeysUpTo(data, words, k - 1);
      front + [Compress(front[k - 1], words[k - 1], 0, |BlockAt(data, k - 1)|, FlagsOf(k - 1, |words|))[..8]]
  }

  lemma {:induction false} KeysLink(data: Bytes, words: seq<State>, k: nat)
    requires k <= |words| == BlockCount(data)
    ensures KeysUpTo(data, words, k)[0] == IV
    ensures forall i :: 0 <= i < k ==>
              KeysUpTo(data, words, k)[i + 1] ==
              Compress(KeysUpTo(data, words, k)[i], words[i], 0, |BlockAt(data, i)|, FlagsOf(i, |words|))[..8]
  {
    hide Compress, BlockAt, FlagsOf;
    if k > 0 { KeysLink(data, words, k - 1); }
  }

  lemma WordsExist(data: Bytes, i: nat)
    requires 64 * i <= |data|
    ensures WordsOfBlock(data, i, Words64(BlockAt(data, i)))
  {
    var b := BlockAt(data, i);
    var padded := b + Zeros(64 - |b|);
    var m := Words64(b);
    forall j | 0 <= j < 64 ensures Bytes4(m[j / 4])[j % 4] == if j < |b| then b[j] else 0 {
      var k := j / 4;
      WordRoundTrip(0, padded[4 * k..4 * k + 4]);
      assert ToBytes(m[k])[j % 4] == padded[4 * k..4 * k + 4][j % 4] == padded[j];
      if j >= |b| { ZeroByte(64 - |b|, j - |b|); }
    }
  }

  /** All data has a chain. */
  lemma ChainExists(data: Bytes)
    ensures exists keys: seq<Key>, words: seq<State> :: Chained(data, keys, words)
  {
    hide Compress, Words64, WordsOfBlock, FlagsOf;
    var n := BlockCount(data);
    var words: seq<State> := seq(n, i requires 0 <= i < n => Words64(BlockAt(data, i)));
    var keys := KeysUpTo(data, words, n);
    KeysLink(data, words, n);
    forall i | 0 <= i < n ensures WordsOfBlock(data, i, words[i]) && LinkAt(data, keys, words, i) {
      WordsExist(data, i);
    }
    assert Chained(data, keys, words);
  }

  /** The empty input is one empty block with all three flags. */
  lemma HashOfNothing()
    ensures Hash([]) == WordBytes(Compress(IV, ZERO_BLOCK, 0, 0, 11)[..8])
    ensures forall i :: 0 <= i < 16 ==> ZERO_BLOCK[i] == 0
  {
    hide Compress, WordBytes;
  }

  lemma {:induction false} WordByte(w: seq<Word>, i: nat)
    requires i < 4 * |w|
    ensures WordBytes(w)[i] == Bytes4(w[i / 4])[i % 4]
  {
    if i / 4 < |w| - 1 {
      WordByte(w[..|w| - 1], i);
    }
  }

  lemma LastWord(w: seq<Word>)
    requires w != []
    ensures WordBytes(w) == WordBytes(w[..|w| - 1]) + ToBytes(w[|w| - 1])
  {
  }

  lemma LastOfBlock(b: Bytes, n: nat)
    requires |b| == 4 * n && n > 0
    ensures ToWords(b, n)[..n - 1] == ToWords(b[..4 * n - 4], n - 1)
    ensures ToWords(b, n)[n - 1] == ToWord(b[4 * n - 4..])
  {
    hide ToWord;
    var front := b[..4 * n - 4];
    assert b[4 * (n - 1)..4 * (n - 1) + 4] == b[4 * n - 4..];
    forall i | 0 <= i < n - 1 ensures ToWords(b, n)[i] == ToWords(front, n - 1)[i] {
      assert b[4 * i..4 * i + 4] == front[4 * i..4 * i + 4];
    }
  }

  /** The words of a block hold exactly its bytes. */
  lemma {:induction false} BlockRoundTrip(b: Bytes, n: nat)
    requires |b| == 4 * n
    ensures WordBytes(ToWords(b, n)) == b
  {
    hide WordBytes, ToWords, ToWord, ToBytes;
    if n > 0 {
      BlockRoundTrip(b[..4 * n - 4], n - 1);
      LastOfBlock(b, n);
      LastWord(ToWords(b, n));
      WordRoundTrip(0, b[4 * n - 4..]);
      assert b == b[..4 * n - 4] + b[4 * n - 4..];
    } else {
      NoWords();
    }
  }

  lemma NoWords()
    ensures WordBytes([]) == []
  {
  }
}
