/**
The Yona hash on bytes: compression in place, the general loop over 64-byte blocks, and
the two-block fast path for 112-byte headers, which gives the same hash.
*/
module YonaHashing {
  import opened Endian
  import opened Machine
  import opened Words
  import opened Yona

  type Key = s: seq<Word> | |s| == 8 witness [0, 0, 0, 0, 0, 0, 0, 0]

  type Digest = b: Bytes | |b| == 32 witness Zeros(32)

  const ZERO_BLOCK: State := [0, 0, 0, 0, 0, 0, 0, 0, 0, 0, 0, 0, 0, 0, 0, 0]

  // ----- compression

  function InitialState(cv: Key, low: Word, high: Word, blockLen: Word, flags: Word): State {
    cv + IV[..4] + [low, high, blockLen, flags]
  }

  /** The two halves of the state combined, and the upper half combined with the key. */
  function Output(s: State, cv: Key): State {
    seq(8, i requires 0 <= i < 8 => Xor(s[i], s[i + 8])) + seq(8, i requires 0 <= i < 8 => Xor(s[i + 8], cv[i]))
  }

  function Compress(cv: Key, m: State, counter: u64, blockLen: Word, flags: Word): State {
    Output(Mix(InitialState(cv, counter % TWO32, counter / TWO32, blockLen, flags), m, ROUNDS), cv)
  }

  /** The G step on four cells of the state array. */
  method YonaG(s: array<Word>, l: Lane, x: Word, y: Word)
    requires s.Length == 16 && LaneOk(l)
    modifies s
    ensures s[..] == GAt(old(s[..]), l, x, y)
  {
    hide Add, Xor, Right;
    s[l.a] := Add(Add(s[l.a], s[l.b]), Xor(x, Y_KEY));
    s[l.d] := Right(Xor(s[l.d], s[l.a]), 17);
    s[l.c] := Add(s[l.c], s[l.d]);
    s[l.b] := Right(Xor(s[l.b], s[l.c]), 13);
    s[l.a] := Add(Add(s[l.a], s[l.b]), Xor(y, Y_KEY));
    s[l.d] := Right(Xor(s[l.d], s[l.a]), 9);
    s[l.c] := Add(s[l.c], s[l.d]);
    s[l.b] := Right(Xor(s[l.b], s[l.c]), 5);
  }

  method YonaRound(s: array<Word>, m: State)
    requires s.Length == 16
    modifies s
    ensures s[..] == Steps(old(s[..]), m, 8)
  {
    hide GAt;
    ghost var before := s[..];
    assert Steps(before, m, 0) == before;
    YonaG(s, Lane(0, 4, 8, 12), m[0], m[1]);
    assert s[..] == Steps(before, m, 1);
    YonaG(s, Lane(1, 5, 9, 13), m[2], m[3]);
    assert s[..] == Steps(before, m, 2);
    YonaG(s, Lane(2, 6, 10, 14), m[4], m[5]);
    assert s[..] == Steps(before, m, 3);
    YonaG(s, Lane(3, 7, 11, 15), m[6], m[7]);
    assert s[..] == Steps(before, m, 4);
    YonaG(s, Lane(0, 5, 10, 15), m[8], m[9]);
    assert s[..] == Steps(before, m, 5);
    YonaG(s, Lane(1, 6, 11, 12), m[10], m[11]);
    assert s[..] == Steps(before, m, 6);
    YonaG(s, Lane(2, 7, 8, 13), m[12], m[13]);
    assert s[..] == Steps(before, m, 7);
    YonaG(s, Lane(3, 4, 9, 14), m[14], m[15]);
  }

  /** `yona_compress` */
  method YonaCompress(cv: Key, m: State, counter: u64, blockLen: Word, flags: Word) returns (out: State)
    ensures out == Compress(cv, m, counter, blockLen, flags)
  {
    hide Steps, Output, Mix, Schedule, Permute;
    ghost var start := InitialState(cv, counter % TWO32, counter / TWO32, blockLen, flags);
    var s := new Word[16](i requires 0 <= i < 16 => InitialState(cv, counter % TWO32, counter / TWO32, blockLen, flags)[i]);
    assert s[..] == start;
    NoRounds(start, m);
    YonaRound(s, m);
    OneMoreRound(start, m, 0);
    var m2 := Permute(m);
    YonaRound(s, m2);
    OneMoreRound(start, m, 1);
    var m3 := Permute(m2);
    YonaRound(s, m3);
    OneMoreRound(start, m, 2);
    var m4 := Permute(m3);
    YonaRound(s, m4);
    OneMoreRound(start, m, 3);
    var m5 := Permute(m4);
    YonaRound(s, m5);
    OneMoreRound(start, m, 4);
    var m6 := Permute(m5);
    YonaRound(s, m6);
    OneMoreRound(start, m, 5);
    var m7 := Permute(m6);
    YonaRound(s, m7);
    OneMoreRound(start, m, 6);
    out := Output(s[..], cv);
  }

  lemma NoRounds(s: State, m: State)
    ensures Mix(s, m, 0) == s && Schedule(m, 0) == m
  {
  }

  lemma OneMoreRound(s: State, m: State, k: nat)
    ensures Mix(s, m, k + 1) == Steps(Mix(s, m, k), Schedule(m, k), 8)
    ensures Schedule(m, k + 1) == Permute(Schedule(m, k))
  {
  }

  // ----- hashing

  /** Up to 64 bytes as sixteen words, padded with zeros. */
  function Words64(chunk: Bytes): State
    requires |chunk| <= 64
  {
    ToWords(chunk + Zeros(64 - |chunk|), 16)
  }

  function StartFlag(first: bool): Word {
    if first then CHUNK_START else 0
  }

  /** The first eight words out of the compression are the next key. */
  function NextKey(cv: Key, m: State, blockLen: Word, flags: Word): Key {
    Compress(cv, m, 0, blockLen, flags)[..8]
  }

  /** The chaining value after all blocks of non-empty data. */
  function Chain(cv: Key, data: Bytes, first: bool): Key
    requires data != []
    decreases |data|
  {
    hide NextKey;
    if |data| <= 64 then
      NextKey(cv, Words64(data), |data|, StartFlag(first) + CHUNK_END + ROOT)
    else
      Chain(NextKey(cv, Words64(data[..64]), 64, StartFlag(first)), data[64..], false)
  }

  function Hash(data: Bytes): Bytes {
    if data == [] then WordBytes(NextKey(IV, ZERO_BLOCK, 0, CHUNK_START + CHUNK_END + ROOT))
    else WordBytes(Chain(IV, data, true))
  }

  /** `yona_bytes_to_words` */
  method BytesToWords(bytes: Bytes) returns (words: State)
    requires |bytes| == 64
    ensures words == ToWords(bytes, 16)
  {
    hide ToWord;
    var w := new Word[16];
    for i := 0 to 16
      invariant forall j :: 0 <= j < i ==> w[j] == ToWords(bytes, 16)[j]
    {
      var start := i * 4;
      w[i] := ToWord(bytes[start..start + 4]);
    }
    words := w[..];
  }

  /** A chunk copied into a zeroed 64-byte block, as words. */
  method BlockWords(chunk: Bytes) returns (words: State)
    requires |chunk| <= 64
    ensures words == Words64(chunk)
  {
    hide ToWords;
    words := BytesToWords(chunk + Zeros(64 - |chunk|));
  }

  /** `yona_words_to_bytes` */
  method WordsToBytes(words: Key) returns (out: Bytes)
    ensures out == WordBytes(words) && |out| == 32
  {
    hide ToBytes;
    out := [];
    for i := 0 to 8
      invariant out == WordBytes(words[..i])
    {
      assert words[..i + 1][..i] == words[..i];
      out := out + ToBytes(words[i]);
    }
    assert words[..8] == words;
  }

  lemma NextKeyIs(cv: Key, m: State, blockLen: Word, flags: Word)
    ensures NextKey(cv, m, blockLen, flags) == Compress(cv, m, 0, blockLen, flags)[..8]
  {
    hide Compress;
  }

  lemma HashIs(data: Bytes)
    ensures data == [] ==> Hash(data) == WordBytes(NextKey(IV, ZERO_BLOCK, 0, CHUNK_START + CHUNK_END + ROOT))
    ensures data != [] ==> Hash(data) == WordBytes(Chain(IV, data, true))
  {
    hide NextKey, Chain, WordBytes;
  }

  lemma Flags()
    ensures StartFlag(true) == CHUNK_START && StartFlag(false) == 0
  {
  }

  /** `yona_hash`: the general loop. */
  method YonaHash(data: Bytes) returns (hash: Bytes)
    requires |data| <= U64_MAX
    ensures hash == Hash(data)
  {
    hide Compress, NextKey, Chain, Hash, ToWords, Zeros, WordBytes, StartFlag, Words64;
    HashIs(data);
    Flags();
    var len := |data|;
    var cv: Key := IV;
    if len == 0 {
      var out := YonaCompress(cv, ZERO_BLOCK, 0, 0, CHUNK_START + CHUNK_END + ROOT);
      NextKeyIs(cv, ZERO_BLOCK, 0, CHUNK_START + CHUNK_END + ROOT);
      hash := WordsToBytes(out[..8]);
      return;
    }
    var totalBlocks := (len + 63) / 64;
    var offset, idx := 0, 0;
    assert data[0..] == data;
    while idx < totalBlocks
      invariant 0 <= idx <= totalBlocks && offset == 64 * idx
      invariant idx < totalBlocks ==> offset < len && Chain(cv, data[offset..], idx == 0) == Chain(IV, data, true)
      invariant idx == totalBlocks ==> cv == Chain(IV, data, true)
    {
      var isFirst, isLast := idx == 0, idx == totalBlocks - 1;
      var remaining := len - offset;
      var blen := if remaining >= 64 then 64 else remaining;
      var words := BlockWords(data[offset..offset + blen]);
      var flags := 0;
      if isFirst {
        flags := flags + CHUNK_START;
      }
      if isLast {
        flags := flags + CHUNK_END + ROOT;
      }
      var out := YonaCompress(cv, words, 0, blen, flags);
      NextKeyIs(cv, words, blen, flags);
      ChainStep(cv, data, offset, isFirst);
      cv := out[..8];
      offset := offset + 64;
      idx := idx + 1;
    }
    hash := WordsToBytes(cv);
  }

  lemma ChainStep(cv: Key, data: Bytes, offset: nat, first: bool)
    requires offset < |data|
    ensures
      var rest := data[offset..];
      && (|rest| <= 64 ==>
            Chain(cv, rest, first) ==
            NextKey(cv, Words64(data[offset..offset + |rest|]), |rest|, StartFlag(first) + CHUNK_END + ROOT))
      && (|rest| > 64 ==>
            Chain(cv, rest, first) ==
            Chain(NextKey(cv, Words64(data[offset..offset + 64]), 64, StartFlag(first)), data[offset + 64..], false))
  {
    hide NextKey, ToWords, Zeros;
    var rest := data[offset..];
    if |rest| > 64 {
      assert rest[..64] == data[offset..offset + 64];
      assert rest[64..] == data[offset + 64..];
    } else {
      assert rest == data[offset..offset + |rest|];
    }
  }

  /** `yona_hash_112`: two blocks, no loop. */
  method YonaHash112(header: Bytes) returns (hash: Bytes)
    requires |header| == 112
    ensures hash == Hash(header)
  {
    hide Compress, NextKey, Chain, Hash, ToWords, Zeros, WordBytes, StartFlag;
    var w1 := BytesToWords(header[0..64]);
    var out1 := YonaCompress(IV, w1, 0, 64, CHUNK_START);
    NextKeyIs(IV, w1, 64, CHUNK_START);
    var cv: Key := out1[..8];
    var w2 := BytesToWords(header[64..112] + Zeros(16));
    var out2 := YonaCompress(cv, w2, 0, 48, CHUNK_END + ROOT);
    hash := WordsToBytes(out2[..8]);
    NextKeyIs(cv, w2, 48, CHUNK_END + ROOT);
    TwoBlocks(header);
    HashIs(header);
  }

  lemma TwoBlocks(header: Bytes)
    requires |header| == 112
    ensures
      var cv := NextKey(IV, ToWords(header[0..64], 16), 64, CHUNK_START);
      Chain(IV, header, true) == NextKey(cv, ToWords(header[64..112] + Zeros(16), 16), 48, CHUNK_END + ROOT)
  {
    hide NextKey, ToWords;
    ChainStep(IV, header, 0, true);
    assert header[0..] == header;
    assert header[0..64] + Zeros(0) == header[0..64];
    var cv := NextKey(IV, ToWords(header[0..64], 16), 64, CHUNK_START);
    ChainStep(cv, header, 64, false);
  }

  lemma HashIs32(data: Bytes)
    ensures |Hash(data)| == 32
  {
    hide Compress, NextKey, Chain;
  }

  const YONA_HEIGHT := 38_500

  /** `calculate_blake3_hash`: the key derivation of older heights is library code. */
  method CalculateHash(data: Bytes, height: nat, derive: Bytes -> Digest) returns (hash: Digest)
    requires |data| <= U64_MAX
    ensures hash == if height >= YONA_HEIGHT then Hash(data) else derive(data)
  {
    hide Hash;
    HashIs32(data);
    if height >= YONA_HEIGHT {
      if |data| == 112 {
        hash := YonaHash112(data);
      } else {
        hash := YonaHash(data);
      }
      return;
    }
    hash := derive(data);
  }
}
