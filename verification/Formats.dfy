/**
The byte formats place by place: the digits of a varint, the bytes of a big-endian number, the
fields of a batch, and which records of a message the slicers' definitions pick.
*/
module Formats {
  import opened Arith
  import opened Batch
  import opened Endian
  import opened Machine
  import opened Varint
  import opened Wire
  import opened WireBuild
  import opened Wrappers

  // ----- varints

  /** Every byte holds seven bits, lowest first, with 128 added to all but the last; no byte is superfluous. */
  lemma {:induction false} EncodeDigits(v: nat)
    ensures
      var b := Encode(v);
      && |b| >= 1 && v < Pow128(|b|) && (|b| > 1 ==> v >= Pow128(|b| - 1))
      && forall i :: 0 <= i < |b| ==>
           b[i] as int == DigitOf(v, i) + (if i < |b| - 1 then 128 else 0)
  {
    if v >= 128 {
      EncodeDigits(v / 128);
      var b, rest := Encode(v), Encode(v / 128);
      assert b == [(v % 128 + 128) as byte] + rest;
      DivGalois(Pow128(|rest| - 1), 128, v);
      DivGalois(Pow128(|rest|), 128, v);
      forall i | 0 < i < |b| ensures b[i] as int == DigitOf(v, i) + (if i < |b| - 1 then 128 else 0) {
        DigitBelow(v, i);
      }
    }
    FirstDigit(v);
  }

  /** The i-th base-128 digit. */
  function DigitOf(v: nat, i: nat): nat {
    DivNonNegative(v, Pow128(i));
    v / Pow128(i) % 128
  }

  lemma DigitBelow(v: nat, i: nat)
    requires i > 0
    ensures DigitOf(v, i) == DigitOf(v / 128, i - 1)
  {
    DivDiv(v, 128, Pow128(i - 1));
  }

  lemma FirstDigit(v: nat)
    ensures DigitOf(v, 0) == v % 128
    ensures Pow128(0) == 1 && Pow128(1) == 128
  {
    assert Pow128(0) == 1;
  }

  // ----- big-endian numbers

  lemma {:induction false} BigByte(v: nat, k: nat, i: nat)
    requires i < k
    ensures BigEndian(v, k)[k - 1 - i] as int == v / Pow256(i) % 256
  {
    if i > 0 {
      BigByte(v / 256, k - 1, i - 1);
      DivDiv(v, 256, Pow256(i - 1));
    }
  }

  // ----- batches

  /** Magic, address and four numbers at fixed places, then the transactions. */
  lemma BatchLayout(b: Batch)
    requires |b.address| == 32
    ensures
      var data := PackHeader(b) + PackTxs(b.txs);
      && |PackHeader(b)| == 64 && |data| >= 64
      && data[..4] == ['T' as byte, 'X' as byte, 'S' as byte, 'Q' as byte]
      && data[4..36] == b.address && FromBigEndian(data[36..44]) == b.id
      && FromBigEndian(data[44..52]) == b.startNonce && FromBigEndian(data[52..60]) == b.endNonce
      && FromBigEndian(data[60..64]) == |b.txs| % 0x1_0000_0000
      && data[64..] == PackTxs(b.txs)
  {
    hide BigEndian, FromBigEndian, PackTxs;
    HeaderParts(b, PackTxs(b.txs));
    Eight(b.id);
    Eight(b.startNonce);
    Eight(b.endNonce);
    Four(|b.txs| % TWO32);
  }

  /** Nothing more can be read: fewer than four bytes, or a length that runs past the end. */
  predicate Truncated(data: Bytes) {
    |data| < 4 || 4 + FromBigEndian(data[..4]) > |data|
  }

  /** Reading takes whole transactions from the front, until it has enough or the rest is truncated. */
  lemma {:induction false} UnpackMeaning(data: Bytes, count: nat) returns (rest: Bytes)
    ensures data == PackTxs(UnpackTxs(data, count)) + rest
    ensures |UnpackTxs(data, count)| == count || (|UnpackTxs(data, count)| < count && Truncated(rest))
    decreases count
  {
    hide FromBigEndian, PackTxs, UnpackTxs;
    UnpackUnfolds(data, count);
    if count == 0 || Truncated(data) {
      rest := data;
      NoTxs();
      assert data == [] + rest;
    } else {
      var length := FromBigEndian(data[..4]);
      rest := UnpackMeaning(data[4 + length..], count - 1);
      Reassemble(data, UnpackTxs(data[4 + length..], count - 1), rest);
    }
  }

  lemma Reassemble(data: Bytes, txs: seq<Bytes>, rest: Bytes)
    requires !Truncated(data)
    requires var length := FromBigEndian(data[..4]); data[4 + length..] == PackTxs(txs) + rest
    ensures var length := FromBigEndian(data[..4]); data == PackTxs([data[4..4 + length]] + txs) + rest
  {
    hide FromBigEndian, BigEndian, PackTxs;
    var length := FromBigEndian(data[..4]);
    FromFourFits(data[..4]);
    FourBack(data[..4]);
    PackFirst(data[4..4 + length], txs);
    assert data == data[..4] + data[4..4 + length] + data[4 + length..];
  }

  lemma UnpackUnfolds(data: Bytes, count: nat)
    ensures count == 0 || Truncated(data) ==> UnpackTxs(data, count) == []
    ensures count > 0 && !Truncated(data) ==>
              var length := FromBigEndian(data[..4]);
              UnpackTxs(data, count) == [data[4..4 + length]] + UnpackTxs(data[4 + length..], count - 1)
  {
    hide FromBigEndian;
  }

  lemma PackFirst(tx: Bytes, txs: seq<Bytes>)
    ensures PackTxs([tx] + txs) == BigEndian(|tx| % TWO32, 4) + tx + PackTxs(txs)
  {
    assert ([tx] + txs)[1..] == txs;
  }

  lemma {:induction false} BigBack(b: Bytes)
    ensures BigEndian(FromBigEndian(b), |b|) == b
  {
    if b != [] {
      BigBack(b[..|b| - 1]);
      assert b == b[..|b| - 1] + [b[|b| - 1]];
    }
  }

  lemma FourBack(b: Bytes)
    requires |b| == 4
    ensures BigEndian(FromBigEndian(b), 4) == b
  {
    BigBack(b);
  }

  // ----- records of a message

  /** Records of two messages in a row are those of the first and then those of the second. */
  lemma {:induction false} RecordsAppend(a: Message, b: Message, num: nat)
    ensures Records(a + b, num) == Records(a, num) + Records(b, num)
  {
    if a == [] {
      assert a + b == b;
    } else {
      hide IsRecord;
      RecordsAppend(a[1..], b, num);
      assert (a + b)[1..] == a[1..] + b && (a + b)[0] == a[0];
    }
  }

  /** A single field is a record of its number when it is length-delimited. */
  lemma RecordsOfOne(f: Field, num: nat)
    ensures Records([f], num) == if Value(f.tag) / 8 == num && f.payload.Delimited? then [f.payload.content] else []
    ensures Records([], num) == []
  {
    assert [f][1..] == [];
  }

  /** The first and the last record are the ends of the list of records. */
  lemma {:induction false} EndsOfRecords(m: Message, num: nat, otherwise: Bytes)
    ensures
      var all := Records(m, num);
      && FirstRecord(m, num) == (if all == [] then None else Some(all[0]))
      && LastRecord(m, num, otherwise) == (if all == [] then otherwise else all[|all| - 1])
  {
    if m != [] {
      EndsOfRecords(m[1..], num, if IsRecord(m[0], num) then m[0].payload.content else otherwise);
    }
  }

  /** The numbers of a message, in order. */
  function Numbers(m: Message, num: nat): seq<u64> {
    if m == [] then []
    else
      var last := m[|m| - 1];
      Numbers(m[..|m| - 1], num) +
      if Value(last.tag) / 8 == num && last.payload.Number? then [Value(last.payload.digits)] else []
  }

  lemma {:induction false} NumbersFirst(m: Message, num: nat)
    requires m != []
    ensures Numbers(m, num) == Numbers([m[0]], num) + Numbers(m[1..], num)
  {
    if |m| > 1 {
      var front := m[..|m| - 1];
      NumbersFirst(front, num);
      assert front[1..] == m[1..][..|m| - 2];
    } else {
      assert m == [m[0]] && m[1..] == [];
    }
  }

  /** The first and the last number are the ends of the list of numbers. */
  lemma {:induction false} EndsOfNumbers(m: Message, num: nat, otherwise: Option<u64>)
    ensures
      var all := Numbers(m, num);
      && FirstNumber(m, num) == (if all == [] then None else Some(all[0]))
      && LastNumber(m, num, otherwise) == (if all == [] then otherwise else Some(all[|all| - 1]))
  {
    if m != [] {
      NumbersFirst(m, num);
      assert [m[0]][..0] == [];
      EndsOfNumbers(m[1..], num, if IsNumber(m[0], num) then Some(Value(m[0].payload.digits)) else otherwise);
    }
  }

  // ----- requested transactions

  lemma RequestedFirst(txs: seq<Bytes>, s: seq<nat>)
    requires s != []
    ensures Requested(txs, s) == (if s[0] < |txs| then [txs[s[0]]] else []) + Requested(txs, s[1..])
  {
  }

  /** Requests are answered one after another. */
  lemma {:induction false} RequestedAppend(txs: seq<Bytes>, a: seq<nat>, b: seq<nat>)
    ensures Requested(txs, a + b) == Requested(txs, a) + Requested(txs, b)
  {
    hide Requested;
    if a == [] {
      assert a + b == b;
      RequestedOne(txs, 0);
    } else {
      RequestedAppend(txs, a[1..], b);
      RequestedFirst(txs, a);
      RequestedFirst(txs, a + b);
      assert (a + b)[1..] == a[1..] + b && (a + b)[0] == a[0];
    }
  }

  /** An index in range gives its transaction, any other nothing. */
  lemma RequestedOne(txs: seq<Bytes>, i: nat)
    ensures Requested(txs, []) == [] && Requested(txs, [i]) == if i < |txs| then [txs[i]] else []
  {
    assert [i][1..] == [];
  }
}
