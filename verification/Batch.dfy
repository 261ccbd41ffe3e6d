/**
The TXSQ batch format: a 64-byte header and length-prefixed transactions. Packing then
unpacking is the identity exactly when the count and every length fit in 32 bits.
*/
module Batch {
  import opened Endian
  import opened Machine
  import opened Wrappers

  const MAGIC: Bytes := [0x54, 0x58, 0x53, 0x51]
  const HEADER := 64

  datatype Batch = Batch(address: Bytes, id: u64, startNonce: u64, endNonce: u64, txs: seq<Bytes>)

  datatype UnpackError = TooShort | BadMagic

  // ----- packing

  /** The length prefix keeps 32 bits. */
  function PackTx(tx: Bytes): Bytes {
    BigEndian(|tx| % TWO32, 4) + tx
  }

  function PackTxs(txs: seq<Bytes>): Bytes {
    if txs == [] then [] else PackTx(txs[0]) + PackTxs(txs[1..])
  }

  function PackHeader(b: Batch): Bytes {
    MAGIC + b.address + BigEndian(b.id, 8) + BigEndian(b.startNonce, 8) + BigEndian(b.endNonce, 8) +
    BigEndian(|b.txs| % TWO32, 4)
  }

  lemma {:induction false} PackTxsSnoc(txs: seq<Bytes>, tx: Bytes)
    ensures PackTxs(txs + [tx]) == PackTxs(txs) + PackTx(tx)
  {
    hide PackTx;
    if txs == [] {
      assert txs + [tx] == [tx] && [tx][1..] == [];
    } else {
      PackTxsSnoc(txs[1..], tx);
      assert (txs + [tx])[1..] == txs[1..] + [tx];
    }
  }

  /** `PackSequentialBatch`; None is the nil result. */
  method PackSequentialBatch(b: Batch) returns (data: Option<Bytes>)
    ensures data.None? <==> b.txs == [] || |b.address| != 32
    ensures data.Some? ==> data.value == PackHeader(b) + PackTxs(b.txs)
  {
    hide PackTxs, BigEndian;
    if |b.txs| == 0 || |b.address| != 32 {
      return None;
    }
    var buf: Bytes := MAGIC;
    buf := buf + b.address;
    buf := buf + BigEndian(b.id, 8);
    buf := buf + BigEndian(b.startNonce, 8);
    buf := buf + BigEndian(b.endNonce, 8);
    buf := buf + BigEndian(|b.txs| % TWO32, 4);
    assert buf == PackHeader(b);
    NoTxs();
    for i := 0 to |b.txs|
      invariant buf == PackHeader(b) + PackTxs(b.txs[..i])
    {
      var tx := b.txs[i];
      buf := buf + BigEndian(|tx| % TWO32, 4);
      buf := buf + tx;
      assert b.txs[..i + 1] == b.txs[..i] + [tx];
      PackTxsSnoc(b.txs[..i], tx);
    }
    assert b.txs[..|b.txs|] == b.txs;
    return Some(buf);
  }

  lemma NoTxs()
    ensures PackTxs([]) == []
  {
  }

  // ----- unpacking

  /** Up to `count` transactions from the front of the bytes; a truncated one ends the list. */
  function UnpackTxs(data: Bytes, count: nat): (txs: seq<Bytes>)
    ensures |txs| <= count
  {
    if count == 0 || |data| < 4 then []
    else
      var length := FromBigEndian(data[..4]);
      if 4 + length > |data| then [] else [data[4..4 + length]] + UnpackTxs(data[4 + length..], count - 1)
  }

  function Unpack(data: Bytes): Result<Batch, UnpackError> {
    if |data| < HEADER then Err(TooShort)
    else if data[..4] != MAGIC then Err(BadMagic)
    else Ok(Batch(data[4..36], Number(data[36..44]), Number(data[44..52]), Number(data[52..60]),
                  UnpackTxs(data[HEADER..], FromBigEndian(data[60..64]))))
  }

  /** `UnpackSequentialBatch` */
  method UnpackSequentialBatch(data: Bytes) returns (r: Result<Batch, UnpackError>)
    ensures r == Unpack(data)
  {
    hide UnpackTxs, FromBigEndian, Number;
    if |data| < HEADER {
      return Err(TooShort);
    }
    if data[..4] != MAGIC {
      return Err(BadMagic);
    }
    var count := FromBigEndian(data[60..64]);
    var result: seq<Bytes> := [];
    var offset := HEADER;
    var i := 0;
    while i < count
      invariant HEADER <= offset <= |data| && 0 <= i <= count
      invariant result + UnpackTxs(data[offset..], count - i) == UnpackTxs(data[HEADER..], count)
    {
      UnpackStep(data, offset, count - i, result);
      if offset + 4 > |data| {
        break;
      }
      var length := FromBigEndian(data[offset..offset + 4]);
      if offset + 4 + length > |data| {
        break;
      }
      result := result + [data[offset + 4..offset + 4 + length]];
      offset := offset + 4 + length;
      i := i + 1;
    }
    if i == count { UnpackNone(data[offset..], result); }
    return Ok(Batch(data[4..36], Number(data[36..44]), Number(data[44..52]), Number(data[52..60]), result));
  }

  lemma UnpackNone(data: Bytes, done: seq<Bytes>)
    ensures done + UnpackTxs(data, 0) == done
  {
  }

  lemma UnpackStep(data: Bytes, offset: nat, count: nat, done: seq<Bytes>)
    requires offset <= |data| && count > 0
    ensures offset + 4 > |data| ==> done + UnpackTxs(data[offset..], count) == done
    ensures
      offset + 4 <= |data| ==>
        var length := FromBigEndian(data[offset..offset + 4]);
        && (offset + 4 + length > |data| ==> done + UnpackTxs(data[offset..], count) == done)
        && (offset + 4 + length <= |data| ==>
              done + UnpackTxs(data[offset..], count) ==
              done + [data[offset + 4..offset + 4 + length]] + UnpackTxs(data[offset + 4 + length..], count - 1))
  {
    hide FromBigEndian;
    var rest := data[offset..];
    if offset + 4 <= |data| {
      assert rest[..4] == data[offset..offset + 4];
      var length := FromBigEndian(data[offset..offset + 4]);
      if offset + 4 + length <= |data| {
        assert rest[4..4 + length] == data[offset + 4..offset + 4 + length];
        assert rest[4 + length..] == data[offset + 4 + length..];
      }
    }
  }

  /** `UnpackTransactions`: what is not a readable batch is one transaction. */
  method UnpackTransactions(data: Bytes) returns (txs: seq<Bytes>)
    ensures txs == match Unpack(data) case Ok(b) => b.txs case Err(_) => [data]
  {
    if |data| < 8 {
      return [data];
    }
    if data[..4] == MAGIC {
      var r := UnpackSequentialBatch(data);
      if r.Ok? {
        return r.value.txs;
      }
    }
    return [data];
  }

  // ----- round trip

  /** The count and every length fit in 32 bits. */
  ghost predicate Fits(b: Batch) {
    |b.txs| < TWO32 && forall i :: 0 <= i < |b.txs| ==> |b.txs[i]| < TWO32
  }

  lemma {:induction false} TxsRoundTrip(txs: seq<Bytes>)
    requires forall i :: 0 <= i < |txs| ==> |txs[i]| < TWO32
    ensures UnpackTxs(PackTxs(txs), |txs|) == txs
  {
    if txs != [] {
      TxsRoundTrip(txs[1..]);
      FirstTx(txs);
    }
  }

  lemma FirstTx(txs: seq<Bytes>)
    requires txs != [] && |txs[0]| < TWO32
    ensures UnpackTxs(PackTxs(txs), |txs|) == [txs[0]] + UnpackTxs(PackTxs(txs[1..]), |txs| - 1)
  {
    hide FromBigEndian, BigEndian;
    var data, length := PackTxs(txs), |txs[0]|;
    Four(length);
    assert data == BigEndian(length, 4) + txs[0] + PackTxs(txs[1..]);
    assert data[..4] == BigEndian(length, 4);
    assert data[4..4 + length] == txs[0];
    assert data[4 + length..] == PackTxs(txs[1..]);
  }

  /** Every unpacked transaction is shorter than 2^32. */
  lemma {:induction false} UnpackedShort(data: Bytes, count: nat)
    ensures forall i :: 0 <= i < |UnpackTxs(data, count)| ==> |UnpackTxs(data, count)[i]| < TWO32
    decreases count
  {
    if count > 0 && |data| >= 4 {
      FromFourFits(data[..4]);
      var length := FromBigEndian(data[..4]);
      if 4 + length <= |data| { UnpackedShort(data[4 + length..], count - 1); }
    }
  }

  /** Unpacking a packed batch gives it back if and only if its count and lengths fit in 32 bits. */
  lemma BatchRoundTrip(b: Batch)
    requires |b.address| == 32
    ensures Unpack(PackHeader(b) + PackTxs(b.txs)) == Ok(b) <==> Fits(b)
  {
    hide FromBigEndian, BigEndian, UnpackTxs, PackTxs, PackHeader;
    HeaderParts(b, PackTxs(b.txs));
    Eight(b.id);
    Eight(b.startNonce);
    Eight(b.endNonce);
    Four(|b.txs| % TWO32);
    if Fits(b) {
      TxsRoundTrip(b.txs);
    } else {
      UnpackedShort(PackTxs(b.txs), |b.txs| % TWO32);
    }
  }

  lemma HeaderParts(b: Batch, payload: Bytes)
    requires |b.address| == 32
    ensures
      var data := PackHeader(b) + payload;
      && |data| >= HEADER && data[..4] == MAGIC && data[4..36] == b.address
      && data[36..44] == BigEndian(b.id, 8) && data[44..52] == BigEndian(b.startNonce, 8)
      && data[52..60] == BigEndian(b.endNonce, 8) && data[60..64] == BigEndian(|b.txs| % TWO32, 4)
      && data[HEADER..] == payload
  {
    hide BigEndian;
  }
}
