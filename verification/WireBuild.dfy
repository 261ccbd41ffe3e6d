/** The hand-packed messages of the block protocols, read back by the slicers. */
module WireBuild {
  import opened Machine
  import opened Varint
  import opened Wire
  import opened Wrappers

  const RECORD1: byte := 0x0a
  const NUMBER2: byte := 0x10

  function Record1(content: Bytes): Field {
    Field([RECORD1], Delimited(Encode(|content|), content))
  }

  function Found(v: byte): Field {
    Field([NUMBER2], Number([v]))
  }

  lemma Record1Ok(content: Bytes)
    requires |content| < MAX_LENGTH
    ensures FieldOk(Record1(content)) && IsRecord(Record1(content), 1)
  {
    VarintRoundTrip(|content|);
    OneByte(RECORD1);
  }

  lemma FoundOk(v: byte)
    requires v < 128
    ensures FieldOk(Found(v)) && IsNumber(Found(v), 2) && Value([v]) == v as int
  {
    OneByte(NUMBER2);
    OneByte(v);
  }

  lemma OneByte(v: byte)
    requires v < 128
    ensures IsVarint([v]) && Value([v]) == v as int
  {
    VarintRoundTrip(v as int);
    assert Encode(v as int) == [v];
  }

  lemma EmptyMessage()
    ensures Serialize([]) == [] && MessageOk([])
  {
  }

  lemma SerializeStep(f: Field, m: Message)
    ensures Serialize([f] + m) == f.tag + PayloadBytes(f.payload) + Serialize(m)
    ensures MessageOk([f] + m) <==> FieldOk(f) && MessageOk(m)
  {
    assert ([f] + m)[1..] == m;
    if MessageOk([f] + m) {
      forall i | 0 <= i < |m| ensures FieldOk(m[i]) {
        assert ([f] + m)[i + 1] == m[i];
      }
      assert ([f] + m)[0] == f;
    }
  }

  /** `BuildHeaderOnlyResponseBytes` */
  method BuildHeaderOnlyResponseBytes(headerBytes: Bytes) returns (resp: Bytes)
    requires |headerBytes| <= U64_MAX - 16
    ensures resp == Serialize([Record1(Serialize([Record1(headerBytes)])), Found(1)])
  {
    hide Serialize, Encode;
    var hLen := EncodeVarintBytes(|headerBytes|);
    var blockBytes: Bytes := [RECORD1];
    blockBytes := blockBytes + hLen;
    blockBytes := blockBytes + headerBytes;
    OneRecord(headerBytes);
    EncodeLength(|headerBytes|);
    var bLen := EncodeVarintBytes(|blockBytes|);
    resp := [RECORD1];
    resp := resp + bLen;
    resp := resp + blockBytes;
    resp := resp + [NUMBER2, 1];
    RecordAndFound(blockBytes, 1);
  }

  lemma OneRecord(content: Bytes)
    ensures Serialize([Record1(content)]) == [RECORD1] + Encode(|content|) + content
  {
    hide Serialize;
    EmptyMessage();
    RecordThen(content, []);
    assert [Record1(content)] + [] == [Record1(content)];
    Flat(Encode(|content|), content, []);
  }

  lemma RecordThen(content: Bytes, m: Message)
    ensures Serialize([Record1(content)] + m) == [RECORD1] + (Encode(|content|) + content) + Serialize(m)
  {
    hide Encode, Serialize;
    SerializeStep(Record1(content), m);
  }

  lemma Flat(length: Bytes, content: Bytes, rest: Bytes)
    ensures [RECORD1] + (length + content) + rest == [RECORD1] + length + content + rest
    ensures rest == [] ==> [RECORD1] + length + content + rest == [RECORD1] + length + content
  {
  }

  lemma RecordAndFound(content: Bytes, v: byte)
    ensures Serialize([Record1(content), Found(v)]) == [RECORD1] + Encode(|content|) + content + [NUMBER2, v]
  {
    hide Serialize, Encode, Record1, Found;
    FoundBytes(v);
    RecordThen(content, [Found(v)]);
    assert [Record1(content)] + [Found(v)] == [Record1(content), Found(v)];
    Flat(Encode(|content|), content, [NUMBER2, v]);
  }

  lemma FoundBytes(v: byte)
    ensures Serialize([Found(v)]) == [NUMBER2, v]
  {
    hide Serialize;
    EmptyMessage();
    SerializeStep(Found(v), []);
    assert [Found(v)] + [] == [Found(v)];
  }

  /** The response of the block-sync handler; None when the block is not stored. */
  method PackBlockResponse(blockRaw: Option<Bytes>) returns (resp: Bytes)
    requires blockRaw.Some? ==> |blockRaw.value| <= U64_MAX
    ensures resp == Serialize(match blockRaw case Some(b) => [Record1(b), Found(1)] case None => [Found(0)])
  {
    hide Serialize, Encode;
    if blockRaw.Some? {
      var bLen := EncodeVarintBytes(|blockRaw.value|);
      resp := [RECORD1];
      resp := resp + bLen;
      resp := resp + blockRaw.value;
      resp := resp + [NUMBER2, 1];
      RecordAndFound(blockRaw.value, 1);
    } else {
      resp := [NUMBER2, 0];
      FoundBytes(0);
    }
  }

  /** A packed response is well formed, and slicing it gives the block back. */
  lemma ResponseRoundTrip(block: Bytes)
    requires |block| < MAX_LENGTH
    ensures
      var m := [Record1(block), Found(1)];
      && MessageOk(m) && LastRecord(m, 1, []) == block
      && FoundIn(LastNumber(m, 2, None), block)
  {
    hide IsRecord, IsNumber, FieldOk, Record1, Found;
    Record1Ok(block);
    FoundOk(1);
    var r, f := Record1(block), Found(1);
    Shapes(block, 1);
    var m := [r, f];
    assert m[1..] == [f] && [f][1..] == [];
    assert LastRecord([f], 1, block) == LastRecord([], 1, block) == block;
    assert LastNumber([f], 2, None) == LastNumber([], 2, Some(1));
  }

  lemma Shapes(block: Bytes, v: byte)
    requires |block| < MAX_LENGTH && v < 128
    ensures !IsRecord(Found(v), 1) && !IsNumber(Record1(block), 2)
    ensures IsRecord(Record1(block), 1) && IsNumber(Found(v), 2)
    ensures Record1(block).payload == Delimited(Encode(|block|), block)
    ensures Found(v).payload == Number([v]) && Value([v]) == v as int
  {
    Record1Ok(block);
    FoundOk(v);
  }

  /** A response saying "not found" is well formed, and is read as one. */
  lemma NotFoundRoundTrip()
    ensures
      var m := [Found(0)];
      MessageOk(m) && LastRecord(m, 1, []) == [] && LastNumber(m, 2, None) == Some(0) && !FoundIn(Some(0), [])
  {
    FoundOk(0);
    var m := [Found(0)];
    assert m[1..] == [];
  }

  /** A header-only response carries exactly the header. */
  lemma HeaderOnlyRoundTrip(header: Bytes)
    requires |header| < MAX_LENGTH - 16
    ensures
      var block := [Record1(header)];
      && MessageOk(block) && FirstRecord(block, 1) == Some(header) && FirstRecord(block, 2) == None
      && |Serialize(block)| < MAX_LENGTH
      && MessageOk([Record1(Serialize(block)), Found(1)])
      && LastRecord([Record1(Serialize(block)), Found(1)], 1, []) == Serialize(block)
  {
    Record1Ok(header);
    OneRecord(header);
    EncodeLength(|header|);
    var block := [Record1(header)];
    assert block[1..] == [];
    ResponseRoundTrip(Serialize(block));
  }

  // ----- missing transactions of a compact block

  /** The requested transactions, out-of-range indexes skipped. */
  function Requested(txs: seq<Bytes>, indexes: seq<nat>): seq<Bytes> {
    if indexes == [] then []
    else
      (if indexes[0] < |txs| then [txs[indexes[0]]] else []) + Requested(txs, indexes[1..])
  }

  function AsRecords(contents: seq<Bytes>): Message {
    if contents == [] then [] else [Record1(contents[0])] + AsRecords(contents[1..])
  }

  lemma {:induction false} SerializeSnoc(m: Message, f: Field)
    ensures Serialize(m + [f]) == Serialize(m) + (f.tag + PayloadBytes(f.payload))
  {
    hide PayloadBytes;
    if m == [] {
      assert m + [f] == [f] && [f][1..] == [];
    } else {
      SerializeSnoc(m[1..], f);
      assert (m + [f])[1..] == m[1..] + [f];
    }
  }

  /** The handler writes each requested transaction as one record of field 1. */
  method WriteBlockTxn(txs: seq<Bytes>, indexes: seq<nat>) returns (stream: Bytes)
    requires forall i :: 0 <= i < |txs| ==> |txs[i]| <= U64_MAX
    ensures stream == Serialize(AsRecords(Requested(txs, indexes)))
  {
    hide Serialize, Encode, Requested;
    stream := [];
    ghost var done: seq<Bytes> := [];
    EmptyMessage();
    assert indexes[0..] == indexes;
    assert [] + Requested(txs, indexes) == Requested(txs, indexes);
    for i := 0 to |indexes|
      invariant stream == Serialize(AsRecords(done))
      invariant done + Requested(txs, indexes[i..]) == Requested(txs, indexes)
    {
      RequestedStep(txs, indexes, i, done);
      if indexes[i] < |txs| {
        var tx := txs[indexes[i]];
        var length := EncodeVarintBytes(|tx|);
        stream := stream + ([RECORD1] + length + tx);
        AsRecordsSnoc(done, tx);
        SerializeSnoc(AsRecords(done), Record1(tx));
        assert [RECORD1] + Encode(|tx|) + tx == [RECORD1] + (Encode(|tx|) + tx);
        done := done + [tx];
      }
    }
    RequestedEnd(txs, indexes);
    assert done + [] == done;
  }

  lemma RequestedStep(txs: seq<Bytes>, indexes: seq<nat>, i: nat, done: seq<Bytes>)
    requires i < |indexes|
    ensures done + Requested(txs, indexes[i..]) ==
            (if indexes[i] < |txs| then done + [txs[indexes[i]]] else done) + Requested(txs, indexes[i + 1..])
  {
    hide Requested;
    RequestedUnfolds(txs, indexes, i);
    if indexes[i] < |txs| {
      assert done + ([txs[indexes[i]]] + Requested(txs, indexes[i + 1..])) ==
             done + [txs[indexes[i]]] + Requested(txs, indexes[i + 1..]);
    }
  }

  lemma RequestedUnfolds(txs: seq<Bytes>, indexes: seq<nat>, i: nat)
    requires i < |indexes|
    ensures indexes[i] < |txs| ==>
              Requested(txs, indexes[i..]) == [txs[indexes[i]]] + Requested(txs, indexes[i + 1..])
    ensures indexes[i] >= |txs| ==> Requested(txs, indexes[i..]) == Requested(txs, indexes[i + 1..])
  {
    assert indexes[i..][1..] == indexes[i + 1..];
  }

  lemma RequestedEnd(txs: seq<Bytes>, indexes: seq<nat>)
    ensures Requested(txs, indexes[|indexes|..]) == []
  {
  }

  lemma {:induction false} AsRecordsSnoc(contents: seq<Bytes>, x: Bytes)
    ensures AsRecords(contents + [x]) == AsRecords(contents) + [Record1(x)]
  {
    if contents != [] {
      AsRecordsSnoc(contents[1..], x);
      assert (contents + [x])[1..] == contents[1..] + [x];
    }
  }

  /** Reading the records of such a stream gives the contents back, in order. */
  lemma {:induction false} RecordsRoundTrip(contents: seq<Bytes>)
    requires forall i :: 0 <= i < |contents| ==> |contents[i]| < MAX_LENGTH
    ensures MessageOk(AsRecords(contents)) && Records(AsRecords(contents), 1) == contents
  {
    if contents != [] {
      RecordsRoundTrip(contents[1..]);
      Record1Ok(contents[0]);
      var rest := AsRecords(contents[1..]);
      SerializeStep(Record1(contents[0]), rest);
      assert ([Record1(contents[0])] + rest)[1..] == rest;
    }
  }
}
