/**
  Messages under a schema: parsing bytes into field values and serializing them.

  The parser never relies on field order. It skips numbers the schema does not declare and fields
  whose wire type does not fit; a repeated scalar keeps the last value, a repeated nested message
  is merged into the one before. The serializer writes fields in declaration order and leaves out
  scalars at their zero value.
  */
module Codec {
  import opened Basics
  import opened Varint
  import opened Wire
  import opened Schemas

  datatype Value =
    | TextValue(data: seq<byte>)
    | DoubleValue(bits: seq<byte>)
    | IntValue(n: int)
    | MessageValue(fields: map<nat, Value>)

  type Message = map<nat, Value>

  const ZERO_BITS: seq<byte> := [0, 0, 0, 0, 0, 0, 0, 0]

  // ---- integers: two's complement, sign-extended to 64 bits on the wire ----

  function FromInt(v: int): nat {
    v % U64
  }

  function ToInt64(n: nat): int {
    if n < 0x8000_0000_0000_0000 then n else n - U64
  }

  function ToInt32(n: nat): int {
    var low := n % 0x1_0000_0000;
    if low < 0x8000_0000 then low else low - 0x1_0000_0000
  }

  predicate FitsInt32(v: int) {
    -0x8000_0000 <= v < 0x8000_0000
  }

  predicate FitsInt64(v: int) {
    -0x8000_0000_0000_0000 <= v < 0x8000_0000_0000_0000
  }

  // ---- parsing ----

  // A scalar read under the kind the schema declares; None when the wire type does not fit.
  function ReadScalar(kind: Kind, p: Payload): Option<Value> {
    match kind
    case Text => if p.Bytes? then Some(TextValue(p.data)) else None
    case Double => if p.Fixed64? then Some(DoubleValue(p.bits)) else None
    case Int32 => if p.Number? then Some(IntValue(ToInt32(p.n))) else None
    case Int64 => if p.Number? then Some(IntValue(ToInt64(p.n))) else None
    case Nested(_) => None
  }

  // The nested message already stored under a number, or an empty one.
  function SubOf(m: Message, n: nat): Message {
    if n in m && m[n].MessageValue? then m[n].fields else map[]
  }

  function Store(s: Schema, m: Message, r: Record): Option<Message>
    decreases s, 0, 0
  {
    match Lookup(s, r.field)
    case None => Some(m)
    case Some(kind) =>
      if kind.Nested? && r.payload.Bytes? then
        match ParseOnto(kind.schema, SubOf(m, r.field), r.payload.data)
        case None => None
        case Some(sub) => Some(m[r.field := MessageValue(sub)])
      else
        match ReadScalar(kind, r.payload)
        case None => Some(m)
        case Some(v) => Some(m[r.field := v])
  }

  function StoreAll(s: Schema, m: Message, rs: seq<Record>): Option<Message>
    decreases s, 1, |rs|
  {
    if rs == [] then Some(m)
    else
      match StoreAll(s, m, rs[..|rs| - 1])
      case None => None
      case Some(before) => Store(s, before, rs[|rs| - 1])
  }

  // Read a message's bytes on top of what is already there. None is a DecodeError.
  function ParseOnto(s: Schema, m: Message, b: seq<byte>): Option<Message>
    decreases s, 2, 0
  {
    match DecodeAll(b)
    case None => None
    case Some(rs) => StoreAll(s, m, rs)
  }

  function Parse(s: Schema, b: seq<byte>): Option<Message> {
    ParseOnto(s, map[], b)
  }

  // ---- serializing ----

  function Serialize(s: Schema, m: Message): seq<byte>
    decreases s, 2, 0
  {
    EncodeAll(RecordsOf(s, |s.fields|, m))
  }

  // Records of the first k declared fields.
  function RecordsOf(s: Schema, k: nat, m: Message): seq<Record>
    requires k <= |s.fields|
    decreases s, 1, k
  {
    if k == 0 then [] else RecordsOf(s, k - 1, m) + RecordOf(s, k - 1, m)
  }

  // At most one record: none for an absent field or a zero scalar.
  function RecordOf(s: Schema, i: nat, m: Message): seq<Record>
    requires i < |s.fields|
    decreases s, 0, 0
  {
    var n := s.fields[i].number;
    if n !in m then []
    else
      match (s.fields[i].kind, m[n])
      case (Text, TextValue(data)) => if data == [] then [] else [Record(n, Bytes(data))]
      case (Double, DoubleValue(bits)) => if bits == ZERO_BITS then [] else [Record(n, Fixed64(bits))]
      case (Int32, IntValue(v)) => if v == 0 then [] else [Record(n, Number(FromInt(v)))]
      case (Int64, IntValue(v)) => if v == 0 then [] else [Record(n, Number(FromInt(v)))]
      case (Nested(sub), MessageValue(fields)) => [Record(n, Bytes(Serialize(sub, fields)))]
      case _ => []
  }

  // A message a program can hold: declared fields only, each of its kind and in range, and zero
  // scalars not stored, since a missing field and a zero one are the same message.
  ghost predicate Canonical(s: Schema, m: Message)
    decreases s
  {
    forall n :: n in m ==> Declares(s, n) && CanonicalValue(Lookup(s, n).value, m[n])
  }

  ghost predicate CanonicalValue(kind: Kind, v: Value)
    decreases kind
  {
    match (kind, v)
    case (Text, TextValue(data)) => data != []
    case (Double, DoubleValue(bits)) => |bits| == 8 && bits != ZERO_BITS
    case (Int32, IntValue(n)) => FitsInt32(n) && n != 0
    case (Int64, IntValue(n)) => FitsInt64(n) && n != 0
    case (Nested(sub), MessageValue(fields)) => Canonical(sub, fields)
    case _ => false
  }
}
