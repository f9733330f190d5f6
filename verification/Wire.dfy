/**
  The record layer: a message is a run of records, each a tag (field number and wire type), then a
  payload whose extent the wire type determines. Nothing here knows a schema.
  */
module Wire {
  import opened Basics
  import opened Varint

  // The largest field number there is, 2^29 - 1.
  const MAX_FIELD: nat := 0x1FFF_FFFF

  datatype Payload =
    | Number(n: nat)            // wire type 0
    | Fixed64(bits: seq<byte>)  // wire type 1
    | Bytes(data: seq<byte>)    // wire type 2
    | Fixed32(bits: seq<byte>)  // wire type 5

  datatype Record = Record(field: nat, payload: Payload)

  predicate Valid(r: Record) {
    && 1 <= r.field <= MAX_FIELD
    && (match r.payload
        case Number(n) => n < U64
        case Fixed64(bits) => |bits| == 8
        case Bytes(data) => |data| < U64
        case Fixed32(bits) => |bits| == 4)
  }

  function WireType(p: Payload): nat {
    match p
    case Number(_) => 0
    case Fixed64(_) => 1
    case Bytes(_) => 2
    case Fixed32(_) => 5
  }

  function EncodePayload(p: Payload): seq<byte> {
    match p
    case Number(n) => Encode(n)
    case Fixed64(bits) => bits
    case Bytes(data) => Encode(|data|) + data
    case Fixed32(bits) => bits
  }

  // tag = (field << 3) | wire type
  function EncodeRecord(r: Record): seq<byte> {
    Encode(r.field * 8 + WireType(r.payload)) + EncodePayload(r.payload)
  }

  function EncodeAll(rs: seq<Record>): seq<byte> {
    if rs == [] then [] else EncodeRecord(rs[0]) + EncodeAll(rs[1..])
  }

  function Take(b: seq<byte>, n: nat): Option<Parsed<seq<byte>>> {
    if n <= |b| then Some(Parsed(b[..n], b[n..])) else None
  }

  function DecodePayload(wireType: nat, b: seq<byte>): Option<Parsed<Payload>> {
    if wireType == 0 then
      match Decode(b)
      case None => None
      case Some(p) => Some(Parsed(Number(p.value), p.rest))
    else if wireType == 1 then
      match Take(b, 8)
      case None => None
      case Some(p) => Some(Parsed(Fixed64(p.value), p.rest))
    else if wireType == 2 then
      match Decode(b)
      case None => None
      case Some(len) =>
        match Take(len.rest, len.value)
        case None => None
        case Some(p) => Some(Parsed(Bytes(p.value), p.rest))
    else if wireType == 5 then
      match Take(b, 4)
      case None => None
      case Some(p) => Some(Parsed(Fixed32(p.value), p.rest))
    else None
  }

  function DecodeRecord(b: seq<byte>): Option<Parsed<Record>> {
    match Decode(b)
    case None => None
    case Some(tag) =>
      var field := tag.value / 8;
      if 1 <= field <= MAX_FIELD then
        match DecodePayload(tag.value % 8, tag.rest)
        case None => None
        case Some(p) => Some(Parsed(Record(field, p.value), p.rest))
      else None
  }

  // All records of a message, or None when the bytes are malformed.
  function DecodeAll(b: seq<byte>): Option<seq<Record>>
    decreases |b|
  {
    if b == [] then Some([])
    else
      match DecodeRecord(b)
      case None => None
      case Some(p) =>
        DecodeProgress(b);
        Both(Some([p.value]), DecodeAll(p.rest))
  }

  // The records of two parts, unless one of them is malformed.
  function Both(first: Option<seq<Record>>, second: Option<seq<Record>>): Option<seq<Record>> {
    if first.Some? && second.Some? then Some(first.value + second.value) else None
  }

  lemma {:induction false} BothAssociative(a: Option<seq<Record>>, b: Option<seq<Record>>, c: Option<seq<Record>>)
    ensures Both(Both(a, b), c) == Both(a, Both(b, c))
  {
    if a.Some? && b.Some? && c.Some? {
      assert (a.value + b.value) + c.value == a.value + (b.value + c.value);
    }
  }

  lemma {:induction false} DecodeProgress(b: seq<byte>)
    requires DecodeRecord(b).Some?
    ensures |DecodeRecord(b).value.rest| < |b|
  {
    DecodeAppend(b, []);
    var tag := Decode(b).value;
    if tag.value % 8 == 0 || tag.value % 8 == 2 {
      DecodeAppend(tag.rest, []);
    }
  }

  // ---- one record ----

  lemma {:induction false} PayloadRoundTrip(p: Payload, field: nat, rest: seq<byte>)
    requires Valid(Record(field, p))
    ensures DecodePayload(WireType(p), EncodePayload(p) + rest) == Some(Parsed(p, rest))
  {
    match p
    case Number(n) => Varint.RoundTrip(n, rest);
    case Fixed64(bits) =>
      assert (bits + rest)[..8] == bits && (bits + rest)[8..] == rest;
    case Bytes(data) =>
      Varint.RoundTrip(|data|, data + rest);
      assert EncodePayload(p) + rest == Encode(|data|) + (data + rest);
      assert (data + rest)[..|data|] == data && (data + rest)[|data|..] == rest;
    case Fixed32(bits) =>
      assert (bits + rest)[..4] == bits && (bits + rest)[4..] == rest;
  }

  lemma {:induction false} TagFits(r: Record)
    requires Valid(r)
    ensures var tag := r.field * 8 + WireType(r.payload);
            tag < U64 && tag / 8 == r.field && tag % 8 == WireType(r.payload)
  {
  }

  // A tag is a varint; reading it as one byte is right for fields 1 to 15 and wrong for all others.
  lemma {:induction false} TagIsOneByte(r: Record)
    ensures |Encode(r.field * 8 + WireType(r.payload))| == 1 <==> r.field < 16
  {
    EncodedSize(r.field * 8 + WireType(r.payload));
  }

  lemma {:induction false} RecordRoundTrip(r: Record, rest: seq<byte>)
    requires Valid(r)
    ensures DecodeRecord(EncodeRecord(r) + rest) == Some(Parsed(r, rest))
    ensures EncodeRecord(r) != []
  {
    var tag := r.field * 8 + WireType(r.payload);
    var payload := EncodePayload(r.payload) + rest;
    TagFits(r);
    Varint.RoundTrip(tag, payload);
    assert EncodeRecord(r) + rest == Encode(tag) + payload;
    PayloadRoundTrip(r.payload, r.field, rest);
    EncodedSize(tag);
  }

  // Whatever bytes decode, they decode to a well-formed record, of the number and wire type their tag
  // says. So field number zero, numbers too large and unknown wire types are all rejected.
  lemma {:induction false} DecodedMatchesTag(b: seq<byte>)
    requires DecodeRecord(b).Some?
    ensures var r := DecodeRecord(b).value.value;
            Valid(r) && Decode(b).Some? && Decode(b).value.value == r.field * 8 + WireType(r.payload)
  {
  }

  // ---- whole messages ----

  lemma {:induction false} RoundTripAll(rs: seq<Record>)
    requires forall r :: r in rs ==> Valid(r)
    ensures DecodeAll(EncodeAll(rs)) == Some(rs)
    decreases |rs|
  {
    if rs != [] {
      RecordRoundTrip(rs[0], EncodeAll(rs[1..]));
      RoundTripAll(rs[1..]);
      assert [rs[0]] + rs[1..] == rs;
    }
  }

  lemma {:induction false} TakeAppend(b: seq<byte>, n: nat, more: seq<byte>)
    requires Take(b, n).Some?
    ensures Take(b + more, n) == Some(Parsed(Take(b, n).value.value, Take(b, n).value.rest + more))
  {
    assert (b + more)[..n] == b[..n] && (b + more)[n..] == b[n..] + more;
  }

  lemma {:induction false} PayloadAppend(wireType: nat, b: seq<byte>, more: seq<byte>)
    requires DecodePayload(wireType, b).Some?
    ensures var p := DecodePayload(wireType, b).value;
            DecodePayload(wireType, b + more) == Some(Parsed(p.value, p.rest + more))
  {
    if wireType == 0 {
      DecodeAppend(b, more);
    } else if wireType == 1 {
      TakeAppend(b, 8, more);
    } else if wireType == 2 {
      DecodeAppend(b, more);
      TakeAppend(Decode(b).value.rest, Decode(b).value.value, more);
    } else {
      TakeAppend(b, 4, more);
    }
  }

  lemma {:induction false} RecordAppend(b: seq<byte>, more: seq<byte>)
    requires DecodeRecord(b).Some?
    ensures var p := DecodeRecord(b).value;
            DecodeRecord(b + more) == Some(Parsed(p.value, p.rest + more))
  {
    DecodeAppend(b, more);
    var tag := Decode(b).value;
    PayloadAppend(tag.value % 8, tag.rest, more);
  }

  // The concatenation of two well-formed messages is well formed and carries the records of both
  // in order; if the first is well formed, the whole fails exactly when the second does.
  lemma {:induction false} DecodeConcatenation(a: seq<byte>, b: seq<byte>)
    requires DecodeAll(a).Some?
    ensures DecodeAll(a + b) == Both(DecodeAll(a), DecodeAll(b))
    decreases |a|
  {
    if a == [] {
      assert a + b == b;
      assert DecodeAll(b).Some? ==> [] + DecodeAll(b).value == DecodeAll(b).value;
    } else {
      var p := DecodeRecord(a).value;
      DecodeProgress(a);
      RecordAppend(a, b);
      DecodeConcatenation(p.rest, b);
      BothAssociative(Some([p.value]), DecodeAll(p.rest), DecodeAll(b));
    }
  }

  // A message never starts with a zero byte: field number 0 does not exist.
  lemma {:induction false} ZeroTagRejected(b: seq<byte>)
    requires b != [] && b[0] == 0
    ensures DecodeAll(b) == None
  {
    assert Raw(b, MAX_BYTES) == Some(Parsed(0, b[1..]));
  }
}
