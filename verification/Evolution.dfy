/**
  Reading one schema's bytes with another, and histories of schemas.

  `Compatible` is what the registry's check amounts to on the wire: every number both versions
  declare has the same type. Reading across compatible schemas never fails, keeps the shared
  fields and leaves the rest at their defaults. The round trip is the case of one schema.
  */
module Evolution {
  import opened Basics
  import opened Varint
  import opened Wire
  import opened Schemas
  import opened Codec

  ghost predicate KindsAgree(a: Kind, b: Kind)
    decreases a
  {
    match (a, b)
    case (Nested(x), Nested(y)) => Compatible(x, y)
    case _ => a == b
  }

  ghost predicate Compatible(a: Schema, b: Schema)
    decreases a
  {
    forall n: nat :: Declares(a, n) && Declares(b, n) ==> KindsAgree(Lookup(a, n).value, Lookup(b, n).value)
  }

  // What reading back needs is slightly less: an int32 may also be read as an int64.
  ghost predicate KindReads(reader: Kind, writer: Kind)
    decreases reader
  {
    match (reader, writer)
    case (Nested(x), Nested(y)) => Readable(x, y)
    case (Int64, Int32) => true
    case _ => reader == writer
  }

  ghost predicate Readable(r: Schema, w: Schema)
    decreases r
  {
    forall n: nat :: Declares(r, n) && Declares(w, n) ==> KindReads(Lookup(r, n).value, Lookup(w, n).value)
  }

  lemma {:induction false} CompatibleReads(r: Schema, w: Schema)
    requires Compatible(r, w)
    ensures Readable(r, w)
    decreases r
  {
    forall n: nat | Declares(r, n) && Declares(w, n)
      ensures KindReads(Lookup(r, n).value, Lookup(w, n).value)
    {
      var x, y := Lookup(r, n).value, Lookup(w, n).value;
      assert KindsAgree(x, y);
      if x.Nested? && y.Nested? {
        CompatibleReads(x.schema, y.schema);
      }
    }
  }

  // What a reader sees of a message: the fields its own schema declares, nested ones likewise.
  function View(s: Schema, m: Message): Message
    decreases s
  {
    map n | n in m && Declares(s, n) :: ViewValue(Lookup(s, n).value, m[n])
  }

  function ViewValue(kind: Kind, v: Value): Value
    decreases kind
  {
    match (kind, v)
    case (Nested(sub), MessageValue(fields)) => MessageValue(View(sub, fields))
    case _ => v
  }

  lemma {:induction false} IntRoundTrip(v: int)
    ensures FitsInt64(v) ==> ToInt64(FromInt(v)) == v
    ensures FitsInt32(v) ==> ToInt32(FromInt(v)) == v
  {
  }

  // Any number read as an integer keeps its low bits, as two's complement.
  lemma {:induction false} IntsKeepLowBits(n: nat, v: int)
    ensures FitsInt32(ToInt32(n)) && (n - ToInt32(n)) % 0x1_0000_0000 == 0
    ensures n < U64 ==> FitsInt64(ToInt64(n)) && (n - ToInt64(n)) % U64 == 0
    ensures FromInt(v) < U64 && (v - FromInt(v)) % U64 == 0
  {
  }

  // ---- the records a serializer writes ----

  // A stored field becomes exactly one record; an absent one none.
  lemma {:induction false} RecordOfShape(s: Schema, i: nat, m: Message)
    requires WellFormed(s) && i < |s.fields| && Canonical(s, m)
    ensures var n := s.fields[i].number;
            && (n !in m ==> RecordOf(s, i, m) == [])
            && (n in m ==> |RecordOf(s, i, m)| == 1 && RecordOf(s, i, m)[0].field == n
                           && CanonicalValue(s.fields[i].kind, m[n]))
  {
    LookupDeclared(s, i);
  }

  // Well-formed as a record, apart from the size of its data.
  predicate Sound(r: Record) {
    r.payload.Bytes? || Valid(r)
  }

  lemma {:induction false} RecordOfSound(s: Schema, i: nat, m: Message)
    requires WellFormed(s) && i < |s.fields| && Canonical(s, m)
    ensures forall r :: r in RecordOf(s, i, m) ==> Sound(r) && 1 <= r.field <= MAX_FIELD
  {
    RecordOfShape(s, i, m);
  }

  ghost predicate AllSound(rs: seq<Record>) {
    forall r :: r in rs ==> Sound(r) && 1 <= r.field <= MAX_FIELD
  }

  lemma {:induction false} AllSoundJoin(a: seq<Record>, b: seq<Record>)
    requires AllSound(a) && AllSound(b)
    ensures AllSound(a + b)
  {
  }

  lemma {:induction false} RecordsOfSound(s: Schema, k: nat, m: Message)
    requires WellFormed(s) && k <= |s.fields| && Canonical(s, m)
    ensures AllSound(RecordsOf(s, k, m))
    decreases k
  {
    if k > 0 {
      RecordsOfSound(s, k - 1, m);
      RecordOfSound(s, k - 1, m);
      AllSoundJoin(RecordsOf(s, k - 1, m), RecordOf(s, k - 1, m));
    }
  }

  // Lengths that a varint can carry.
  ghost predicate DataEncodable(rs: seq<Record>) {
    forall r :: r in rs && r.payload.Bytes? ==> |r.payload.data| < U64
  }

  lemma {:induction false} DataEncodableParts(first: seq<Record>, second: seq<Record>)
    requires DataEncodable(first + second)
    ensures DataEncodable(first) && DataEncodable(second)
  {
    forall r | r in first || r in second
      ensures r in first + second
    {
    }
  }

  // Data inside a message is no longer than the message.
  lemma {:induction false} DataFits(rs: seq<Record>, r: Record)
    requires r in rs && r.payload.Bytes?
    ensures |r.payload.data| <= |EncodeAll(rs)|
    decreases |rs|
  {
    if r != rs[0] {
      DataFits(rs[1..], r);
    }
  }

  lemma {:induction false} SerializedRecords(s: Schema, m: Message)
    requires WellFormed(s) && Canonical(s, m) && |Serialize(s, m)| < U64
    ensures DecodeAll(Serialize(s, m)) == Some(RecordsOf(s, |s.fields|, m))
    ensures DataEncodable(RecordsOf(s, |s.fields|, m))
  {
    var rs := RecordsOf(s, |s.fields|, m);
    RecordsOfSound(s, |s.fields|, m);
    forall r | r in rs
      ensures Valid(r)
    {
      if r.payload.Bytes? {
        DataFits(rs, r);
      }
    }
    RoundTripAll(rs);
  }

  // ---- reading them back ----

  // The part of a reader's view that comes from the first k fields of the writer.
  function Prefix(r: Schema, w: Schema, k: nat, m: Message): Message
    requires k <= |w.fields|
  {
    map n | n in m && Declares(r, n) && NumberBelow(w, k, n) :: ViewValue(Lookup(r, n).value, m[n])
  }

  predicate NumberBelow(w: Schema, k: nat, n: nat)
    requires k <= |w.fields|
  {
    exists i :: 0 <= i < k && w.fields[i].number == n
  }

  lemma {:induction false} PrefixGrows(r: Schema, w: Schema, k: nat, m: Message)
    requires WellFormed(w) && k < |w.fields|
    ensures var n := w.fields[k].number;
            && n !in Prefix(r, w, k, m)
            && Prefix(r, w, k + 1, m)
               == if n in m && Declares(r, n)
                  then Prefix(r, w, k, m)[n := ViewValue(Lookup(r, n).value, m[n])]
                  else Prefix(r, w, k, m)
  {
    var n := w.fields[k].number;
    forall x: nat
      ensures NumberBelow(w, k + 1, x) <==> NumberBelow(w, k, x) || x == n
    {
    }
    assert !NumberBelow(w, k, n);
  }

  // One record, read under the reader's schema, adds the reader's view of that field.
  lemma {:induction false} RecordReads(r: Schema, w: Schema, i: nat, m: Message, before: Message)
    requires WellFormed(w) && i < |w.fields| && Canonical(w, m) && Readable(r, w)
    requires w.fields[i].number in m && w.fields[i].number !in before
    requires DataEncodable(RecordOf(w, i, m))
    ensures var n := w.fields[i].number;
            |RecordOf(w, i, m)| == 1 &&
            Store(r, before, RecordOf(w, i, m)[0])
            == Some(if Declares(r, n) then before[n := ViewValue(Lookup(r, n).value, m[n])] else before)
    decreases w, 0, 0
  {
    var n := w.fields[i].number;
    RecordOfShape(w, i, m);
    LookupDeclared(w, i);
    if Declares(r, n) {
      assert KindReads(Lookup(r, n).value, w.fields[i].kind);
      match m[n]
      case IntValue(v) => IntRoundTrip(v);
      case MessageValue(fields) =>
        assert RecordOf(w, i, m)[0] == Record(n, Bytes(Serialize(w.fields[i].kind.schema, fields)));
        ReadsAcross(Lookup(r, n).value.schema, w.fields[i].kind.schema, fields);
      case _ =>
    }
  }

  lemma {:induction false} RecordsRead(r: Schema, w: Schema, k: nat, m: Message)
    requires WellFormed(w) && k <= |w.fields| && Canonical(w, m) && Readable(r, w)
    requires DataEncodable(RecordsOf(w, k, m))
    ensures StoreAll(r, map[], RecordsOf(w, k, m)) == Some(Prefix(r, w, k, m))
    decreases w, 1, k
  {
    if k == 0 {
      PrefixZero(r, w, m);
    } else {
      var j := k - 1;
      assert RecordsOf(w, k, m) == RecordsOf(w, j, m) + RecordOf(w, j, m);
      DataEncodableParts(RecordsOf(w, j, m), RecordOf(w, j, m));
      RecordsRead(r, w, j, m);
      NextFieldReads(r, w, j, m);
    }
  }

  lemma {:induction false} PrefixZero(r: Schema, w: Schema, m: Message)
    ensures Prefix(r, w, 0, m) == map[]
  {
  }

  lemma {:induction false} NextFieldReads(r: Schema, w: Schema, k: nat, m: Message)
    requires WellFormed(w) && k < |w.fields| && Canonical(w, m) && Readable(r, w)
    requires DataEncodable(RecordOf(w, k, m))
    requires StoreAll(r, map[], RecordsOf(w, k, m)) == Some(Prefix(r, w, k, m))
    ensures StoreAll(r, map[], RecordsOf(w, k, m) + RecordOf(w, k, m)) == Some(Prefix(r, w, k + 1, m))
    decreases w, 0, 1
  {
    var rs, last, before := RecordsOf(w, k, m), RecordOf(w, k, m), Prefix(r, w, k, m);
    PrefixGrows(r, w, k, m);
    RecordOfShape(w, k, m);
    if w.fields[k].number in m {
      RecordReads(r, w, k, m, before);
      StoreOne(r, map[], rs, last[0]);
      assert last == [last[0]];
    } else {
      assert rs + [] == rs;
    }
  }

  lemma {:induction false} StoreOne(s: Schema, m: Message, rs: seq<Record>, last: Record)
    requires StoreAll(s, m, rs).Some?
    ensures StoreAll(s, m, rs + [last]) == Store(s, StoreAll(s, m, rs).value, last)
  {
    assert (rs + [last])[..|rs|] == rs;
  }

  lemma {:induction false} PrefixOfAll(r: Schema, w: Schema, m: Message)
    requires Canonical(w, m)
    ensures Prefix(r, w, |w.fields|, m) == View(r, m)
  {
    forall n | n in m
      ensures NumberBelow(w, |w.fields|, n)
    {
      assert Declares(w, n);
    }
  }

  // Reading a writer's bytes with any compatible schema, nested schemas included, and even with int32
  // read as int64: it never fails and yields exactly the reader's view. (No message reaches 2^64 bytes.)
  lemma {:induction false} ReadsAcross(r: Schema, w: Schema, m: Message)
    requires WellFormed(w) && Canonical(w, m) && Readable(r, w) && |Serialize(w, m)| < U64
    ensures Parse(r, Serialize(w, m)) == Some(View(r, m))
    decreases w, 2, 0
  {
    SerializedRecords(w, m);
    RecordsRead(r, w, |w.fields|, m);
    PrefixOfAll(r, w, m);
  }

  // ---- one schema: the round trip ----

  lemma {:induction false} CompatibleWithItself(s: Schema)
    ensures Compatible(s, s)
    decreases s
  {
    forall n: nat | Declares(s, n)
      ensures KindsAgree(Lookup(s, n).value, Lookup(s, n).value)
    {
      if Lookup(s, n).value.Nested? {
        CompatibleWithItself(Lookup(s, n).value.schema);
      }
    }
  }

  lemma {:induction false} OwnViewIsAll(s: Schema, m: Message)
    requires Canonical(s, m)
    ensures View(s, m) == m
    decreases s
  {
    forall n | n in m
      ensures Declares(s, n) && ViewValue(Lookup(s, n).value, m[n]) == m[n]
    {
      assert CanonicalValue(Lookup(s, n).value, m[n]);
      if m[n].MessageValue? {
        OwnViewIsAll(Lookup(s, n).value.schema, m[n].fields);
      }
    }
  }

  // Parse after serialize is the identity, for every schema and every message of it.
  lemma {:induction false} RoundTrip(s: Schema, m: Message)
    requires WellFormed(s) && Canonical(s, m) && |Serialize(s, m)| < U64
    ensures Parse(s, Serialize(s, m)) == Some(m)
  {
    CompatibleWithItself(s);
    CompatibleReads(s, s);
    ReadsAcross(s, s, m);
    OwnViewIsAll(s, m);
  }

  // ---- zero values ----

  predicate IsZero(v: Value) {
    v == TextValue([]) || v == DoubleValue(ZERO_BITS) || v == IntValue(0)
  }

  lemma {:induction false} ZeroRecords(s: Schema, k: nat, m: Message, n: nat)
    requires k <= |s.fields| && n in m && IsZero(m[n])
    ensures RecordsOf(s, k, m) == RecordsOf(s, k, m - {n})
    decreases k
  {
    if k > 0 {
      ZeroRecords(s, k - 1, m, n);
      ZeroRecord(s, k - 1, m, n);
    }
  }

  lemma {:induction false} ZeroRecord(s: Schema, i: nat, m: Message, n: nat)
    requires i < |s.fields| && n in m && IsZero(m[n])
    ensures RecordOf(s, i, m) == RecordOf(s, i, m - {n})
  {
  }

  // A zero value is not written: on the wire it is the same as a missing field, under any schema.
  lemma {:induction false} ZeroIsMissing(s: Schema, m: Message, n: nat)
    requires n in m && IsZero(m[n])
    ensures Serialize(s, m) == Serialize(s, m - {n})
  {
    ZeroRecords(s, |s.fields|, m, n);
  }

  // ---- dropping one field ----

  // r is w without one of its fields.
  ghost predicate Without(r: Schema, w: Schema, gone: nat) {
    forall n: nat :: Lookup(r, n) == if n == gone then None else Lookup(w, n)
  }

  lemma {:induction false} WithoutCompatible(r: Schema, w: Schema, gone: nat)
    requires Without(r, w, gone)
    ensures Compatible(r, w) && Compatible(w, r)
  {
    CompatibleWithItself(w);
    forall n: nat | Declares(r, n) && Declares(w, n)
      ensures KindsAgree(Lookup(r, n).value, Lookup(w, n).value)
      ensures KindsAgree(Lookup(w, n).value, Lookup(r, n).value)
    {
      assert Lookup(r, n) == Lookup(w, n);
    }
  }

  lemma {:induction false} WithoutCanonical(r: Schema, w: Schema, gone: nat, m: Message)
    requires Without(r, w, gone) && Canonical(w, m)
    ensures Canonical(r, m - {gone})
  {
    forall n | n in m - {gone}
      ensures Declares(r, n) && CanonicalValue(Lookup(r, n).value, m[n])
    {
      assert Lookup(r, n) == Lookup(w, n);
    }
  }

  lemma {:induction false} WithoutViewAt(r: Schema, w: Schema, gone: nat, m: Message, n: nat)
    requires Without(r, w, gone) && Canonical(w, m) && View(r, m - {gone}) == m - {gone}
    ensures n in View(r, m) <==> n in m - {gone}
    ensures n in View(r, m) ==> View(r, m)[n] == m[n]
  {
    assert n == gone ==> !Declares(r, n);
    if n in m - {gone} {
      assert Declares(w, n);
      assert View(r, m - {gone})[n] == ViewValue(Lookup(r, n).value, m[n]);
    }
  }

  // The reader without the field sees everything else unchanged.
  lemma {:induction false} WithoutHidesOnly(r: Schema, w: Schema, gone: nat, m: Message)
    requires Without(r, w, gone) && Canonical(w, m)
    ensures View(r, m) == m - {gone}
  {
    WithoutCanonical(r, w, gone, m);
    OwnViewIsAll(r, m - {gone});
    forall n: nat
      ensures n in View(r, m) <==> n in m - {gone}
      ensures n in View(r, m) ==> View(r, m)[n] == m[n]
    {
      WithoutViewAt(r, w, gone, m, n);
    }
  }

  // The declared fields with the k-th one taken out.
  function TakenOut(fields: seq<Field>, k: nat): seq<Field>
    requires k < |fields|
  {
    fields[..k] + fields[k + 1..]
  }

  lemma {:induction false} OthersRemain(fields: seq<Field>, k: nat, n: nat)
    requires k < |fields|
    requires forall i, j :: 0 <= i < j < |fields| ==> fields[i].number != fields[j].number
    ensures var rest := TakenOut(fields, k);
            (exists i :: 0 <= i < |rest| && rest[i].number == n)
            <==> n != fields[k].number && exists i :: 0 <= i < |fields| && fields[i].number == n
  {
    var rest := TakenOut(fields, k);
    if i :| 0 <= i < |rest| && rest[i].number == n {
      assert fields[if i < k then i else i + 1] == rest[i];
    }
    if i :| 0 <= i < |fields| && i != k && fields[i].number == n {
      assert rest[if i < k then i else i - 1] == fields[i];
    }
  }

  // Taking any one field out of a well-formed schema leaves all other numbers as they were.
  lemma {:induction false} DropField(r: Schema, w: Schema, k: nat)
    requires WellFormed(w) && k < |w.fields| && r.fields == TakenOut(w.fields, k)
    ensures Without(r, w, w.fields[k].number)
  {
    var gone := w.fields[k].number;
    forall n: nat
      ensures Lookup(r, n) == if n == gone then None else Lookup(w, n)
    {
      OthersRemain(w.fields, k, n);
      if Lookup(r, n).Some? {
        var i := Find(r.fields, n).value;
        LookupDeclared(w, if i < k then i else i + 1);
      }
    }
  }
}
