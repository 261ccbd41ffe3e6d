/**
Messages on the wire (Protocol Buffers Encoding guide): a message is a sequence of fields,
a field is a tag varint followed by a payload whose wire type the tag names. The slicers
below walk raw bytes; each is proved to return what the definition over fields says, for
the bytes of every well-formed message.
*/
module Wire {
  import opened Machine
  import opened Varint
  import opened Wrappers

  // ----- well-formed messages

  datatype Payload =
    | Number(digits: Bytes)
    | Fixed64(eight: Bytes)
    | Delimited(length: Bytes, content: Bytes)
    | Fixed32(four: Bytes)

  datatype Field = Field(tag: Bytes, payload: Payload)

  type Message = seq<Field>

  function WireType(p: Payload): nat {
    match p
    case Number(_) => 0
    case Fixed64(_) => 1
    case Delimited(_, _) => 2
    case Fixed32(_) => 5
  }

  function Num(f: Field): nat {
    Value(f.tag) / 8
  }

  const MAX_LENGTH := 0x8000_0000

  predicate PayloadOk(p: Payload) {
    match p
    case Number(digits) => IsVarint(digits)
    case Fixed64(eight) => |eight| == 8
    case Delimited(length, content) => IsVarint(length) && Value(length) == |content| < MAX_LENGTH
    case Fixed32(four) => |four| == 4
  }

  predicate FieldOk(f: Field) {
    IsVarint(f.tag) && Value(f.tag) % 8 == WireType(f.payload) && PayloadOk(f.payload)
  }

  predicate MessageOk(m: Message) {
    forall i :: 0 <= i < |m| ==> FieldOk(m[i])
  }

  function PayloadBytes(p: Payload): Bytes {
    match p
    case Number(digits) => digits
    case Fixed64(eight) => eight
    case Delimited(length, content) => length + content
    case Fixed32(four) => four
  }

  function Serialize(m: Message): Bytes {
    if m == [] then [] else m[0].tag + PayloadBytes(m[0].payload) + Serialize(m[1..])
  }

  predicate IsRecord(f: Field, num: nat) {
    Num(f) == num && f.payload.Delimited?
  }

  predicate IsNumber(f: Field, num: nat) {
    Num(f) == num && f.payload.Number?
  }

  /** Content of the first length-delimited field with this number. */
  function FirstRecord(m: Message, num: nat): Option<Bytes> {
    if m == [] then None
    else if IsRecord(m[0], num) then Some(m[0].payload.content)
    else FirstRecord(m[1..], num)
  }

  function FirstNumber(m: Message, num: nat): Option<u64> {
    if m == [] then None
    else if IsNumber(m[0], num) then Some(Value(m[0].payload.digits))
    else FirstNumber(m[1..], num)
  }

  /** Contents of all length-delimited fields with this number, in order. */
  function Records(m: Message, num: nat): seq<Bytes> {
    if m == [] then []
    else (if IsRecord(m[0], num) then [m[0].payload.content] else []) + Records(m[1..], num)
  }

  function LastRecord(m: Message, num: nat, otherwise: Bytes): Bytes {
    if m == [] then otherwise
    else LastRecord(m[1..], num, if IsRecord(m[0], num) then m[0].payload.content else otherwise)
  }

  function LastNumber(m: Message, num: nat, otherwise: Option<u64>): Option<u64> {
    if m == [] then otherwise
    else LastNumber(m[1..], num, if IsNumber(m[0], num) then Some(Value(m[0].payload.digits)) else otherwise)
  }

  // ----- one field at the front of the remaining bytes

  /** The remaining bytes are those of `rest`. */
  ghost predicate At(data: Bytes, offset: int, rest: Message) {
    0 <= offset <= |data| && MessageOk(rest) && data[offset..] == Serialize(rest)
  }

  /** Past the tag of the first field of `rest`. */
  ghost predicate AfterTag(data: Bytes, offset: int, rest: Message) {
    && 0 <= offset <= |data| && rest != [] && MessageOk(rest)
    && data[offset..] == PayloadBytes(rest[0].payload) + Serialize(rest[1..])
  }

  /** What `DecodeVarint` promises about its results. */
  ghost predicate Read(buf: Bytes, v: u64, n: nat) {
    && (n == 0 ==> forall i :: 0 <= i < |buf| ==> buf[i] >= 128)
    && (n > 0 ==> n <= |buf| && buf[n - 1] < 128 && (forall i :: 0 <= i < n - 1 ==> buf[i] >= 128) && v == Value(buf[..n]))
  }

  lemma AtEnd(data: Bytes, offset: int, rest: Message)
    requires At(data, offset, rest)
    ensures offset >= |data| <==> rest == []
  {
  }

  lemma TagRead(data: Bytes, offset: int, rest: Message, tag: u64, n: nat)
    requires At(data, offset, rest) && offset < |data| && Read(data[offset..], tag, n)
    ensures n > 0 && rest != [] && FieldOk(rest[0])
    ensures tag / 8 == Num(rest[0]) && tag % 8 == WireType(rest[0].payload)
    ensures AfterTag(data, offset + n, rest)
  {
    hide Value;
    var f := rest[0];
    var tail := PayloadBytes(f.payload) + Serialize(rest[1..]);
    assert data[offset..] == f.tag + tail;
    ReadsFirst(data[offset..], f.tag, tail, tag, n);
    assert data[offset + n..] == data[offset..][n..];
  }

  lemma NumberRead(data: Bytes, offset: int, rest: Message, v: u64, n: nat)
    requires AfterTag(data, offset, rest) && rest[0].payload.Number? && Read(data[offset..], v, n)
    ensures n > 0 && v == Value(rest[0].payload.digits) && At(data, offset + n, rest[1..])
  {
    hide Value;
    assert FieldOk(rest[0]);
    ReadsFirst(data[offset..], rest[0].payload.digits, Serialize(rest[1..]), v, n);
    assert data[offset + n..] == data[offset..][n..];
  }

  lemma RecordRead(data: Bytes, offset: int, rest: Message, length: u64, n: nat)
    requires AfterTag(data, offset, rest) && rest[0].payload.Delimited? && Read(data[offset..], length, n)
    ensures n > 0 && length == |rest[0].payload.content| < MAX_LENGTH
    ensures offset + n + length <= |data| && At(data, offset + n + length, rest[1..])
    ensures data[offset + n..offset + n + length] == rest[0].payload.content
  {
    hide Value;
    assert FieldOk(rest[0]);
    var content, tail := rest[0].payload.content, Serialize(rest[1..]);
    assert data[offset..] == rest[0].payload.length + (content + tail);
    ReadsFirst(data[offset..], rest[0].payload.length, content + tail, length, n);
    assert data[offset + n..] == data[offset..][n..] == content + tail;
    assert data[offset + n + length..] == data[offset + n..][length..] == tail;
    assert data[offset + n..offset + n + length] == data[offset + n..][..length];
  }

  /** Go's conversion of a 64-bit value to `int`, and an `int` sum. */
  function Signed(v: int): int {
    if v <= 0x7FFF_FFFF_FFFF_FFFF then v else v - TWO64
  }

  /** `skipField`: how many bytes the payload of an unknown field takes. */
  method SkipField(wireType: u64, buf: Bytes, ghost p: Payload, ghost tail: Bytes) returns (skip: int)
    ensures PayloadOk(p) && wireType == WireType(p) && buf == PayloadBytes(p) + tail ==> skip == |PayloadBytes(p)| > 0
    ensures wireType != 2 ==> skip >= 0
  {
    hide Value;
    ghost var good := PayloadOk(p) && wireType == WireType(p) && buf == PayloadBytes(p) + tail;
    if wireType == 0 {
      var v, n := DecodeVarint(buf);
      if good { ReadsFirst(buf, p.digits, tail, v, n); }
      skip := n;
    } else if wireType == 1 {
      skip := 8;
    } else if wireType == 2 {
      var length, n := DecodeVarint(buf);
      if good {
        assert buf == p.length + (p.content + tail);
        ReadsFirst(buf, p.length, p.content + tail, length, n);
      }
      skip := if n == 0 then 0 else Signed(n + Signed(length));
    } else if wireType == 5 {
      skip := 4;
    } else {
      skip := 0;
    }
  }

  lemma Skipped(data: Bytes, offset: int, rest: Message, skip: int)
    requires AfterTag(data, offset, rest) && skip == |PayloadBytes(rest[0].payload)|
    ensures At(data, offset + skip, rest[1..])
  {
    assert data[offset + skip..] == data[offset..][skip..];
  }

  /** The bytes after `offset`, none when it is past the end. */
  function From(data: Bytes, offset: nat): Bytes {
    if offset <= |data| then data[offset..] else []
  }

  // ----- the slicers

  datatype SliceError = BadLength | OutOfBounds | NotFound

  /** `ExtractHeaderBytesFromBlockBytes` */
  method ExtractHeaderBytesFromBlockBytes(blockBytes: Bytes, ghost m: Message) returns (r: Result<Bytes, SliceError>)
    ensures MessageOk(m) && blockBytes == Serialize(m) ==>
              r == match FirstRecord(m, 1) case Some(header) => Ok(header) case None => Err(NotFound)
  {
    hide Serialize, MessageOk, FieldOk, At, AfterTag, Num, Value;
    ghost var good := MessageOk(m) && blockBytes == Serialize(m);
    ghost var rest := m;
    StartAt(blockBytes, m);
    var offset: nat := 0;
    while offset < |blockBytes|
      invariant good ==> At(blockBytes, offset, rest) && FirstRecord(m, 1) == FirstRecord(rest, 1)
      decreases |blockBytes| - offset
    {
      var tag, n := DecodeVarint(blockBytes[offset..]);
      if good { TagRead(blockBytes, offset, rest, tag, n); }
      if n == 0 {
        break;
      }
      offset := offset + n;
      var fieldNum, wireType := tag / 8, tag % 8;
      if fieldNum == 1 && wireType == 2 {
        var length, ln := DecodeVarint(blockBytes[offset..]);
        if good { RecordRead(blockBytes, offset, rest, length, ln); }
        if ln == 0 {
          return Err(BadLength);
        }
        offset := offset + ln;
        if Signed(length) < 0 || Signed(length) > |blockBytes| - offset {
          return Err(OutOfBounds);
        }
        return Ok(blockBytes[offset..offset + length]);
      } else {
        var skip := SkipField(wireType, From(blockBytes, offset), PayloadOf(rest), TailOf(rest));
        if good { SkippedPayload(blockBytes, offset, rest, skip); }
        if skip <= 0 && wireType == 2 {
          break;
        }
        offset := offset + skip;
        if good { rest := rest[1..]; }
      }
    }
    if good && offset >= |blockBytes| { AtEnd(blockBytes, offset, rest); }
    return Err(NotFound);
  }

  ghost function PayloadOf(rest: Message): Payload {
    if rest == [] then Number([]) else rest[0].payload
  }

  ghost function TailOf(rest: Message): Bytes {
    if rest == [] then [] else Serialize(rest[1..])
  }

  lemma StartAt(data: Bytes, m: Message)
    ensures MessageOk(m) && data == Serialize(m) ==> At(data, 0, m)
  {
    assert data[0..] == data;
  }

  /** After a skip the offset is at the next field. */
  lemma SkippedPayload(data: Bytes, offset: nat, rest: Message, skip: int)
    requires AfterTag(data, offset, rest)
    requires
      var p, tail := PayloadOf(rest), TailOf(rest);
      PayloadOk(p) && From(data, offset) == PayloadBytes(p) + tail ==> skip == |PayloadBytes(p)| > 0
    ensures skip > 0 && At(data, offset + skip, rest[1..])
  {
    assert FieldOk(rest[0]);
    Skipped(data, offset, rest, skip);
  }

  /** `ExtractHeightFromHeaderBytes` */
  method ExtractHeightFromHeaderBytes(headerBytes: Bytes, ghost m: Message) returns (r: Result<u64, SliceError>)
    ensures MessageOk(m) && headerBytes == Serialize(m) ==>
              r == match FirstNumber(m, 2) case Some(height) => Ok(height) case None => Err(NotFound)
  {
    hide Serialize, MessageOk, FieldOk, At, AfterTag, Num, Value;
    ghost var good := MessageOk(m) && headerBytes == Serialize(m);
    ghost var rest := m;
    StartAt(headerBytes, m);
    var offset: nat := 0;
    while offset < |headerBytes|
      invariant good ==> At(headerBytes, offset, rest) && FirstNumber(m, 2) == FirstNumber(rest, 2)
      decreases |headerBytes| - offset
    {
      var tag, n := DecodeVarint(headerBytes[offset..]);
      if good { TagRead(headerBytes, offset, rest, tag, n); }
      if n == 0 {
        break;
      }
      offset := offset + n;
      var fieldNum, wireType := tag / 8, tag % 8;
      if fieldNum == 2 && wireType == 0 {
        var val, vn := DecodeVarint(headerBytes[offset..]);
        if good { NumberRead(headerBytes, offset, rest, val, vn); }
        if vn == 0 {
          return Err(BadLength);
        }
        return Ok(val);
      } else {
        var skip := SkipField(wireType, From(headerBytes, offset), PayloadOf(rest), TailOf(rest));
        if good { SkippedPayload(headerBytes, offset, rest, skip); }
        if skip <= 0 && wireType == 2 {
          break;
        }
        offset := offset + skip;
        if good { rest := rest[1..]; }
      }
    }
    if good && offset >= |headerBytes| { AtEnd(headerBytes, offset, rest); }
    return Err(NotFound);
  }

  /** The transactions of the first body field of a block; `body` are the fields of that body. */
  method ExtractTransactionsFromBlockBytes(blockBytes: Bytes, ghost m: Message, ghost body: Message)
    returns (r: Result<seq<Bytes>, SliceError>)
    ensures MessageOk(m) && blockBytes == Serialize(m) ==>
              && (FirstRecord(m, 2) == None ==> r == Err(NotFound))
              && (MessageOk(body) && FirstRecord(m, 2) == Some(Serialize(body)) ==> r == Ok(Records(body, 1)))
  {
    hide Serialize, MessageOk, FieldOk, At, AfterTag, Num, Value;
    ghost var good := MessageOk(m) && blockBytes == Serialize(m);
    ghost var rest := m;
    StartAt(blockBytes, m);
    var offset: nat := 0;
    while offset < |blockBytes|
      invariant good ==> At(blockBytes, offset, rest) && FirstRecord(m, 2) == FirstRecord(rest, 2)
      decreases |blockBytes| - offset
    {
      var tag, n := DecodeVarint(blockBytes[offset..]);
      if good { TagRead(blockBytes, offset, rest, tag, n); }
      if n == 0 {
        break;
      }
      offset := offset + n;
      var fieldNum, wireType := tag / 8, tag % 8;
      if fieldNum == 2 && wireType == 2 {
        var length, ln := DecodeVarint(blockBytes[offset..]);
        if good { RecordRead(blockBytes, offset, rest, length, ln); }
        if ln == 0 {
          return Err(BadLength);
        }
        offset := offset + ln;
        if Signed(length) < 0 || Signed(length) > |blockBytes| - offset {
          return Err(OutOfBounds);
        }
        r := CollectTransactions(blockBytes[offset..offset + length], body);
        return;
      } else {
        var skip := SkipField(wireType, From(blockBytes, offset), PayloadOf(rest), TailOf(rest));
        if good { SkippedPayload(blockBytes, offset, rest, skip); }
        if skip <= 0 && wireType == 2 {
          break;
        }
        offset := offset + skip;
        if good { rest := rest[1..]; }
      }
    }
    if good && offset >= |blockBytes| { AtEnd(blockBytes, offset, rest); }
    return Err(NotFound);
  }

  /** The inner loop over a block body. */
  method CollectTransactions(bodyBytes: Bytes, ghost m: Message) returns (r: Result<seq<Bytes>, SliceError>)
    ensures MessageOk(m) && bodyBytes == Serialize(m) ==> r == Ok(Records(m, 1))
  {
    hide Serialize, MessageOk, FieldOk, At, AfterTag, Num, Value, Records;
    ghost var good := MessageOk(m) && bodyBytes == Serialize(m);
    ghost var rest := m;
    StartAt(bodyBytes, m);
    var offset: nat := 0;
    var txs: seq<Bytes> := [];
    while offset < |bodyBytes|
      invariant good ==> At(bodyBytes, offset, rest) && Records(m, 1) == txs + Records(rest, 1)
      decreases |bodyBytes| - offset
    {
      var tag, n := DecodeVarint(bodyBytes[offset..]);
      if good {
        TagRead(bodyBytes, offset, rest, tag, n);
        RecordsStep(txs, rest, 1);
      }
      if n == 0 {
        break;
      }
      offset := offset + n;
      var fieldNum, wireType := tag / 8, tag % 8;
      if fieldNum == 1 && wireType == 2 {
        var length, ln := DecodeVarint(bodyBytes[offset..]);
        if good { RecordRead(bodyBytes, offset, rest, length, ln); }
        if ln == 0 {
          return Err(BadLength);
        }
        offset := offset + ln;
        if Signed(length) < 0 || Signed(length) > |bodyBytes| - offset {
          return Err(OutOfBounds);
        }
        txs := txs + [bodyBytes[offset..offset + length]];
        offset := offset + length;
      } else {
        var skip := SkipField(wireType, From(bodyBytes, offset), PayloadOf(rest), TailOf(rest));
        if good { SkippedPayload(bodyBytes, offset, rest, skip); }
        if skip <= 0 && wireType == 2 {
          break;
        }
        offset := offset + skip;
      }
      if good { rest := rest[1..]; }
    }
    if good && offset >= |bodyBytes| {
      AtEnd(bodyBytes, offset, rest);
      RecordsEnd(txs, rest, 1);
    }
    return Ok(txs);
  }

  lemma RecordsStep(done: seq<Bytes>, rest: Message, num: nat)
    requires rest != []
    ensures done + Records(rest, num) ==
            (if IsRecord(rest[0], num) then done + [rest[0].payload.content] else done) + Records(rest[1..], num)
  {
  }

  lemma RecordsEnd(done: seq<Bytes>, rest: Message, num: nat)
    requires rest == []
    ensures done + Records(rest, num) == done
  {
  }

  /** `HasBodyAndTransactions` */
  method HasBodyAndTransactions(data: Bytes, ghost m: Message, ghost body: Message) returns (has: bool)
    ensures MessageOk(m) && data == Serialize(m) ==>
              && (FirstRecord(m, 2) == None ==> !has)
              && (MessageOk(body) && FirstRecord(m, 2) == Some(Serialize(body)) ==> has == (Records(body, 1) != []))
  {
    hide Serialize, MessageOk, FieldOk, At, AfterTag, Num, Value;
    ghost var good := MessageOk(m) && data == Serialize(m);
    ghost var rest := m;
    StartAt(data, m);
    var offset: nat := 0;
    while offset < |data|
      invariant good ==> At(data, offset, rest) && FirstRecord(m, 2) == FirstRecord(rest, 2)
      decreases |data| - offset
    {
      var tag, n := DecodeVarint(data[offset..]);
      if good { TagRead(data, offset, rest, tag, n); }
      if n == 0 {
        break;
      }
      offset := offset + n;
      var fieldNum, wireType := tag / 8, tag % 8;
      if fieldNum == 2 && wireType == 2 {
        var length, ln := DecodeVarint(data[offset..]);
        if good { RecordRead(data, offset, rest, length, ln); }
        if ln == 0 {
          return false;
        }
        offset := offset + ln;
        if Signed(length) < 0 || Signed(length) > |data| - offset {
          return false;
        }
        has := HasTransaction(data[offset..offset + length], body);
        return;
      } else {
        var skip := SkipField(wireType, From(data, offset), PayloadOf(rest), TailOf(rest));
        if good { SkippedPayload(data, offset, rest, skip); }
        if skip <= 0 && wireType == 2 {
          break;
        }
        offset := offset + skip;
        if good { rest := rest[1..]; }
      }
    }
    if good && offset >= |data| { AtEnd(data, offset, rest); }
    return false;
  }

  method HasTransaction(bodyBytes: Bytes, ghost m: Message) returns (has: bool)
    ensures MessageOk(m) && bodyBytes == Serialize(m) ==> has == (Records(m, 1) != [])
  {
    hide Serialize, MessageOk, FieldOk, At, AfterTag, Num, Value;
    ghost var good := MessageOk(m) && bodyBytes == Serialize(m);
    ghost var rest := m;
    StartAt(bodyBytes, m);
    var offset: nat := 0;
    while offset < |bodyBytes|
      invariant good ==> At(bodyBytes, offset, rest) && Records(m, 1) == Records(rest, 1)
      decreases |bodyBytes| - offset
    {
      var tag, n := DecodeVarint(bodyBytes[offset..]);
      if good { TagRead(bodyBytes, offset, rest, tag, n); }
      if n == 0 {
        break;
      }
      offset := offset + n;
      var fieldNum, wireType := tag / 8, tag % 8;
      if fieldNum == 1 && wireType == 2 {
        return true;
      }
      var skip := SkipField(wireType, From(bodyBytes, offset), PayloadOf(rest), TailOf(rest));
      if good { SkippedPayload(bodyBytes, offset, rest, skip); }
      if skip <= 0 && wireType == 2 {
        break;
      }
      offset := offset + skip;
      if good { rest := rest[1..]; }
    }
    if good && offset >= |bodyBytes| { AtEnd(bodyBytes, offset, rest); }
    return false;
  }

  /** The block of a response and whether it was found; without a `found` field, whether it is non-empty. */
  method ExtractBlockFromResponseBytes(data: Bytes, ghost m: Message) returns (r: Result<(Bytes, bool), SliceError>)
    ensures MessageOk(m) && data == Serialize(m) ==>
              r == Ok((LastRecord(m, 1, []), FoundIn(LastNumber(m, 2, None), LastRecord(m, 1, []))))
  {
    hide Serialize, MessageOk, FieldOk, At, AfterTag, Num, Value;
    ghost var good := MessageOk(m) && data == Serialize(m);
    ghost var rest := m;
    StartAt(data, m);
    var offset: nat := 0;
    var blockBytes: Bytes := [];
    var found, foundFieldParsed := false, false;
    ghost var last: Option<u64> := None;
    while offset < |data|
      invariant good ==> At(data, offset, rest)
      invariant good ==> LastRecord(m, 1, []) == LastRecord(rest, 1, blockBytes) && LastNumber(m, 2, None) == LastNumber(rest, 2, last)
      invariant foundFieldParsed == last.Some? && found == (last.Some? && last.value != 0)
      decreases |data| - offset
    {
      var tag, n := DecodeVarint(data[offset..]);
      if good { TagRead(data, offset, rest, tag, n); }
      if n == 0 {
        break;
      }
      offset := offset + n;
      var fieldNum, wireType := tag / 8, tag % 8;
      if fieldNum == 1 && wireType == 2 {
        var length, ln := DecodeVarint(data[offset..]);
        if good { RecordRead(data, offset, rest, length, ln); }
        if ln == 0 {
          return Err(BadLength);
        }
        offset := offset + ln;
        if Signed(length) < 0 || Signed(length) > |data| - offset {
          return Err(OutOfBounds);
        }
        blockBytes := data[offset..offset + length];
        offset := offset + length;
      } else if fieldNum == 2 && wireType == 0 {
        var val, vn := DecodeVarint(data[offset..]);
        if good { NumberRead(data, offset, rest, val, vn); }
        if vn == 0 {
          return Err(BadLength);
        }
        offset := offset + vn;
        found, foundFieldParsed := val != 0, true;
        last := Some(val);
      } else {
        var skip := SkipField(wireType, From(data, offset), PayloadOf(rest), TailOf(rest));
        if good { SkippedPayload(data, offset, rest, skip); }
        if skip <= 0 && wireType == 2 {
          break;
        }
        offset := offset + skip;
      }
      if good { rest := rest[1..]; }
    }
    if good && offset >= |data| { AtEnd(data, offset, rest); }
    if !foundFieldParsed && |blockBytes| > 0 {
      found := true;
    }
    return Ok((blockBytes, found));
  }

  predicate FoundIn(found: Option<u64>, blockBytes: Bytes) {
    match found
    case Some(v) => v != 0
    case None => blockBytes != []
  }
}
