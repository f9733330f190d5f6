/**
  The decoding algorithm as a loop: read a tag, read the payload its wire type calls for, store the
  field, until the bytes run out. It stores each field as it arrives, so a later DecodeError throws
  the half-filled message away.
  */
module Decoder {
  import opened Basics
  import opened Varint
  import opened Wire
  import opened Schemas
  import opened Codec
  import opened Merging

  method ReadPayload(b: seq<byte>, start: nat, wireType: nat) returns (p: Option<Payload>, next: nat)
    requires start <= |b|
    ensures next <= |b|
    ensures DecodePayload(wireType, b[start..]) == if p.Some? then Some(Parsed(p.value, b[next..])) else None
  {
    next := start;
    if wireType == 0 {
      var n: Option<nat>;
      n, next := ReadVarint(b, start);
      p := if n.Some? then Some(Number(n.value)) else None;
    } else if wireType == 1 || wireType == 5 {
      var size := if wireType == 1 then 8 else 4;
      if start + size > |b| {
        return None, start;
      }
      next := start + size;
      var bits := b[start..next];
      assert b[start..][..size] == bits && b[start..][size..] == b[next..];
      p := Some(if wireType == 1 then Fixed64(bits) else Fixed32(bits));
    } else if wireType == 2 {
      var length, from := ReadVarint(b, start);
      if length.None? || from + length.value > |b| {
        return None, start;
      }
      next := from + length.value;
      assert b[from..][..length.value] == b[from..next] && b[from..][length.value..] == b[next..];
      p := Some(Bytes(b[from..next]));
    } else {
      p := None;
    }
  }

  method ReadRecord(b: seq<byte>, start: nat) returns (r: Option<Record>, next: nat)
    requires start <= |b|
    ensures next <= |b| && (r.Some? ==> start < next)
    ensures DecodeRecord(b[start..]) == if r.Some? then Some(Parsed(r.value, b[next..])) else None
  {
    var tag, from := ReadVarint(b, start);
    r, next := None, start;
    if tag.Some? && 1 <= tag.value / 8 <= MAX_FIELD {
      var p, end := ReadPayload(b, from, tag.value % 8);
      if p.Some? {
        r, next := Some(Record(tag.value / 8, p.value)), end;
        DecodeProgress(b[start..]);
      }
    }
  }

  // What remains to be parsed on top of m, one record at a time.
  lemma {:induction false} ParseStep(s: Schema, m: Message, b: seq<byte>)
    requires b != []
    ensures ParseOnto(s, m, b)
            == match DecodeRecord(b)
               case None => None
               case Some(p) =>
                 match Store(s, m, p.value)
                 case None => None
                 case Some(x) => ParseOnto(s, x, p.rest)
  {
    if DecodeRecord(b).Some? {
      var p := DecodeRecord(b).value;
      DecodeProgress(b);
      if DecodeAll(p.rest).Some? {
        var rest := DecodeAll(p.rest).value;
        StoreAllAppend(s, m, [p.value], rest);
        assert [p.value][..0] == [];
        assert StoreAll(s, m, [p.value]) == Store(s, m, p.value);
      }
    }
  }

  // Store one record; a nested message is parsed into the one already there.
  method StoreRecord(s: Schema, m: Message, r: Record) returns (stored: Option<Message>)
    ensures stored == Store(s, m, r)
    decreases s, 0
  {
    var kind := Lookup(s, r.field);
    if kind.None? {
      return Some(m);
    }
    if kind.value.Nested? && r.payload.Bytes? {
      var sub := ParseInto(kind.value.schema, SubOf(m, r.field), r.payload.data);
      return if sub.Some? then Some(m[r.field := MessageValue(sub.value)]) else None;
    }
    var v := ReadScalar(kind.value, r.payload);
    stored := Some(if v.Some? then m[r.field := v.value] else m);
  }

  method ParseInto(s: Schema, start: Message, b: seq<byte>) returns (r: Option<Message>)
    ensures r == ParseOnto(s, start, b)
    decreases s, 1
  {
    var m := start;
    var next := 0;
    while next < |b|
      invariant 0 <= next <= |b|
      invariant ParseOnto(s, m, b[next..]) == ParseOnto(s, start, b)
      decreases |b| - next
    {
      ParseStep(s, m, b[next..]);
      var record, end := ReadRecord(b, next);
      if record.None? {
        return None;
      }
      var stored := StoreRecord(s, m, record.value);
      if stored.None? {
        return None;
      }
      m, next := stored.value, end;
    }
    r := Some(m);
  }
}
