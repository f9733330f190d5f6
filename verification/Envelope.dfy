/**
  The Schema Registry envelope: a zero magic byte, the schema id as four big-endian bytes, one zero
  byte naming the file's only message, then the Protobuf bytes.
  */
module Envelope {
  import opened Basics
  import opened Varint
  import opened Wire
  import opened Schemas
  import opened Codec
  import opened Evolution

  const HEADER: nat := 6

  function TwoBytes(n: nat): seq<byte>
    requires n < 0x1_0000
  {
    [n / 0x100, n % 0x100]
  }

  function FromTwo(b: seq<byte>): nat
    requires |b| == 2
  {
    b[0] as nat * 0x100 + b[1]
  }

  function BigEndian(id: nat): seq<byte>
    requires id < 0x1_0000_0000
  {
    TwoBytes(id / 0x1_0000) + TwoBytes(id % 0x1_0000)
  }

  function FromBigEndian(b: seq<byte>): nat
    requires |b| == 4
  {
    FromTwo(b[..2]) * 0x1_0000 + FromTwo(b[2..])
  }

  function Frame(id: nat, payload: seq<byte>): seq<byte>
    requires id < 0x1_0000_0000
  {
    [0] + BigEndian(id) + [0] + payload
  }

  // The schema id and the Protobuf bytes, or None for anything that is not such an envelope.
  function Unframe(b: seq<byte>): Option<(nat, seq<byte>)> {
    if |b| < HEADER || b[0] != 0 || b[5] != 0 then None
    else Some((FromBigEndian(b[1..5]), b[HEADER..]))
  }

  function Deserialize(s: Schema, b: seq<byte>): Option<Message> {
    match Unframe(b)
    case None => None
    case Some(p) => Parse(s, p.1)
  }

  lemma {:induction false} BigEndianRoundTrip(id: nat)
    requires id < 0x1_0000_0000
    ensures FromBigEndian(BigEndian(id)) == id
  {
    var high, low := TwoBytes(id / 0x1_0000), TwoBytes(id % 0x1_0000);
    assert (high + low)[..2] == high && (high + low)[2..] == low;
  }

  lemma {:induction false} FrameRoundTrip(id: nat, payload: seq<byte>)
    requires id < 0x1_0000_0000
    ensures Unframe(Frame(id, payload)) == Some((id, payload))
  {
    var b := Frame(id, payload);
    assert b[1..5] == BigEndian(id);
    assert b[HEADER..] == payload;
    BigEndianRoundTrip(id);
  }

  // Where everything stands in the envelope.
  lemma {:induction false} FrameLayout(id: nat, payload: seq<byte>)
    requires id < 0x1_0000_0000
    ensures var b := Frame(id, payload);
            && |b| == HEADER + |payload| && b[0] == 0 && b[5] == 0 && b[HEADER..] == payload
            && id == 0x100_0000 * (b[1] as int) + 0x1_0000 * (b[2] as int) + 0x100 * (b[3] as int) + b[4]
  {
    var b := Frame(id, payload);
    var high, low := id / 0x1_0000, id % 0x1_0000;
    assert b[1] == high / 0x100 && b[2] == high % 0x100;
    assert b[3] == low / 0x100 && b[4] == low % 0x100;
  }

  // Unframing takes exactly the framed messages apart, and rejects everything else: too short, another
  // magic byte, or another message index.
  lemma {:induction false} UnframeExactly(b: seq<byte>)
    ensures |b| < 6 || b[0] != 0 || b[5] != 0 ==> Unframe(b) == None
    ensures |b| >= 6 && b[0] == 0 && b[5] == 0 ==>
              var id := 0x100_0000 * (b[1] as int) + 0x1_0000 * (b[2] as int) + 0x100 * (b[3] as int) + b[4];
              id < 0x1_0000_0000 && Unframe(b) == Some((id, b[6..])) && b == Frame(id, b[6..])
  {
    if |b| >= 6 && b[0] == 0 && b[5] == 0 {
      var id := FromBigEndian(b[1..5]);
      assert b[1..5][..2] == [b[1], b[2]] && b[1..5][2..] == [b[3], b[4]];
      assert id / 0x1_0000 == FromTwo([b[1], b[2]]) && id % 0x1_0000 == FromTwo([b[3], b[4]]);
      assert TwoBytes(FromTwo([b[1], b[2]])) == [b[1], b[2]] && TwoBytes(FromTwo([b[3], b[4]])) == [b[3], b[4]];
      assert b == [b[0]] + ([b[1], b[2]] + [b[3], b[4]]) + [b[5]] + b[6..];
    }
  }

  // Serializer to deserializer, across compatible versions of the schema.
  lemma {:induction false} DeserializesAcross(r: Schema, w: Schema, id: nat, m: Message)
    requires id < 0x1_0000_0000
    requires WellFormed(w) && Canonical(w, m) && Compatible(r, w) && |Serialize(w, m)| < U64
    ensures Deserialize(r, Frame(id, Serialize(w, m))) == Some(View(r, m))
  {
    FrameRoundTrip(id, Serialize(w, m));
    CompatibleReads(r, w);
    ReadsAcross(r, w, m);
  }

  // A raw parser rejects every framed message, and so it does when handed the bytes from offset 5:
  // both start with a zero byte, and field number zero does not exist.
  lemma {:induction false} RawParserFails(s: Schema, id: nat, payload: seq<byte>)
    requires id < 0x1_0000_0000
    ensures Parse(s, Frame(id, payload)) == None
    ensures Parse(s, Frame(id, payload)[5..]) == None
  {
    ZeroTagRejected(Frame(id, payload));
    ZeroTagRejected(Frame(id, payload)[5..]);
  }
}
