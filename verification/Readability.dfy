/**
  Which readers see a writer's messages unharmed: exactly those whose shared fields have the writer's
  type, or int64 for int32.
  */
module Readability {
  import opened Basics
  import opened Varint
  import opened Wire
  import opened Schemas
  import opened Codec
  import opened Evolution

  // ---- how deep messages nest ----

  function Depth(s: Schema): nat
    decreases s, |s.fields| + 1
  {
    DepthOf(s, |s.fields|)
  }

  function DepthOf(s: Schema, k: nat): nat
    requires k <= |s.fields|
    decreases s, k
  {
    if k == 0 then 0
    else
      var rest := DepthOf(s, k - 1);
      match s.fields[k - 1].kind
      case Nested(sub) => if Depth(sub) + 1 > rest then Depth(sub) + 1 else rest
      case _ => rest
  }

  lemma {:induction false} DepthOfField(s: Schema, k: nat, i: nat)
    requires i < k <= |s.fields| && s.fields[i].kind.Nested?
    ensures Depth(s.fields[i].kind.schema) < DepthOf(s, k)
    decreases k
  {
    if i < k - 1 {
      DepthOfField(s, k - 1, i);
    }
  }

  // ---- messages with one field ----

  predicate OnlyField(w: Schema, i: nat, m: Message) {
    i < |w.fields| && m.Keys == {w.fields[i].number}
  }

  lemma {:induction false} OtherFieldsEmpty(w: Schema, k: nat, i: nat, m: Message)
    requires WellFormed(w) && OnlyField(w, i, m) && k <= |w.fields|
    ensures RecordsOf(w, k, m) == if i < k then RecordOf(w, i, m) else []
    decreases k
  {
    if k > 0 {
      var j := k - 1;
      OtherFieldsEmpty(w, j, i, m);
      if j != i {
        assert w.fields[j].number !in m;
        assert RecordOf(w, j, m) == [];
      }
    }
  }

  // Such a message is one record, and reading it is storing that record.
  lemma {:induction false} OneRecordRead(r: Schema, w: Schema, i: nat, m: Message, rec: Record)
    requires WellFormed(w) && OnlyField(w, i, m) && RecordOf(w, i, m) == [rec] && Valid(rec)
    ensures Serialize(w, m) == EncodeRecord(rec)
    ensures Parse(r, Serialize(w, m)) == Store(r, map[], rec)
  {
    OtherFieldsEmpty(w, |w.fields|, i, m);
    RoundTripAll([rec]);
    assert EncodeAll([rec]) == EncodeRecord(rec) + [];
    assert [rec][..0] == [];
    assert StoreAll(r, map[], [rec]) == Store(r, map[], rec);
  }

  lemma {:induction false} RecordSize(rec: Record)
    requires Valid(rec)
    ensures |EncodeRecord(rec)| <= 20 + if rec.payload.Bytes? then |rec.payload.data| else 0
  {
    TagFits(rec);
    AtMostTenBytes(rec.field * 8 + WireType(rec.payload));
    match rec.payload
    case Number(n) => AtMostTenBytes(n);
    case Bytes(data) => AtMostTenBytes(|data|);
    case _ =>
  }

  // ---- a message that is read wrongly ----

  // A value that shows the difference between two kinds, of which not both are nested.
  function Telling(reader: Kind, writer: Kind): Value {
    match writer
    case Text => TextValue([0])
    case Double => DoubleValue([1, 0, 0, 0, 0, 0, 0, 0])
    case Int32 => IntValue(1)
    case Int64 => IntValue(if reader.Int32? then 0x8000_0000 else 1)
    case Nested(_) => MessageValue(map[])
  }

  // What it is written as.
  function Told(reader: Kind, writer: Kind): Payload {
    match writer
    case Text => Bytes([0])
    case Double => Fixed64([1, 0, 0, 0, 0, 0, 0, 0])
    case Int32 => Number(1)
    case Int64 => Number(if reader.Int32? then 0x8000_0000 else 1)
    case Nested(_) => Bytes([])
  }

  lemma {:induction false} EmptyMessage(s: Schema, k: nat)
    requires k <= |s.fields|
    ensures RecordsOf(s, k, map[]) == []
    decreases k
  {
    if k > 0 {
      EmptyMessage(s, k - 1);
    }
  }

  lemma {:induction false} ToldRecord(w: Schema, i: nat, reader: Kind)
    requires i < |w.fields|
    ensures var n, writer := w.fields[i].number, w.fields[i].kind;
            && RecordOf(w, i, map[n := Telling(reader, writer)]) == [Record(n, Told(reader, writer))]
            && CanonicalValue(writer, Telling(reader, writer))
  {
    if w.fields[i].kind.Nested? {
      EmptyMessage(w.fields[i].kind.schema, |w.fields[i].kind.schema.fields|);
    }
  }

  lemma {:induction false} ToldWrongly(r: Schema, n: nat, writer: Kind)
    requires Declares(r, n) && !KindReads(Lookup(r, n).value, writer)
    requires !(Lookup(r, n).value.Nested? && writer.Nested?)
    ensures var reader := Lookup(r, n).value;
            Store(r, map[], Record(n, Told(reader, writer)))
            != Some(map[n := ViewValue(reader, Telling(reader, writer))])
  {
    var reader := Lookup(r, n).value;
    var wrong := Store(r, map[], Record(n, Told(reader, writer)));
    if wrong.Some? && n in wrong.value {
      assert wrong.value[n] != Telling(reader, writer);
    }
  }

  lemma {:induction false} OneFieldCanonical(w: Schema, i: nat, v: Value)
    requires WellFormed(w) && i < |w.fields| && CanonicalValue(w.fields[i].kind, v)
    ensures Canonical(w, map[w.fields[i].number := v])
  {
    LookupDeclared(w, i);
  }

  lemma {:induction false} OneFieldView(r: Schema, n: nat, v: Value)
    requires Declares(r, n)
    ensures View(r, map[n := v]) == map[n := ViewValue(Lookup(r, n).value, v)]
  {
  }

  lemma {:induction false} TellingMisread(r: Schema, w: Schema, i: nat) returns (m: Message)
    requires WellFormed(w) && i < |w.fields| && Declares(r, w.fields[i].number)
    requires var reader := Lookup(r, w.fields[i].number).value;
             && !KindReads(reader, w.fields[i].kind) && !(reader.Nested? && w.fields[i].kind.Nested?)
    ensures Canonical(w, m) && |Serialize(w, m)| <= 40
    ensures Parse(r, Serialize(w, m)) != Some(View(r, m))
  {
    var n, writer := w.fields[i].number, w.fields[i].kind;
    var reader := Lookup(r, n).value;
    var v, rec := Telling(reader, writer), Record(n, Told(reader, writer));
    m := map[n := v];
    ToldRecord(w, i, reader);
    OneFieldCanonical(w, i, v);
    OneRecordRead(r, w, i, m, rec);
    RecordSize(rec);
    OneFieldView(r, n, v);
    ToldWrongly(r, n, writer);
  }

  lemma {:induction false} WrapMisread(r: Schema, w: Schema, i: nat, reader: Schema, sub: Schema, inner: Message)
    returns (m: Message)
    requires WellFormed(w) && i < |w.fields| && w.fields[i].kind == Nested(sub)
    requires Lookup(r, w.fields[i].number) == Some(Nested(reader))
    requires Canonical(sub, inner) && |Serialize(sub, inner)| < U64
    requires Parse(reader, Serialize(sub, inner)) != Some(View(reader, inner))
    ensures Canonical(w, m)
    ensures |Serialize(w, m)| <= 20 + |Serialize(sub, inner)|
    ensures Parse(r, Serialize(w, m)) != Some(View(r, m))
  {
    var n, v, rec := w.fields[i].number, MessageValue(inner), Record(w.fields[i].number, Bytes(Serialize(sub, inner)));
    m := map[n := v];
    assert RecordOf(w, i, m) == [rec];
    OneFieldCanonical(w, i, v);
    OneRecordRead(r, w, i, m, rec);
    RecordSize(rec);
    OneFieldView(r, n, v);
    NestedStore(r, rec);
    assert m[n] == v;
  }

  lemma {:induction false} NestedStore(r: Schema, rec: Record)
    requires Declares(r, rec.field) && Lookup(r, rec.field).value.Nested? && rec.payload.Bytes?
    ensures var parsed := Parse(Lookup(r, rec.field).value.schema, rec.payload.data);
            Store(r, map[], rec)
            == if parsed.Some? then Some(map[rec.field := MessageValue(parsed.value)]) else None
  {
  }

  lemma {:induction false} WrongField(r: Schema, w: Schema) returns (i: nat)
    requires WellFormed(w) && !Readable(r, w)
    ensures i < |w.fields| && Declares(r, w.fields[i].number)
    ensures !KindReads(Lookup(r, w.fields[i].number).value, w.fields[i].kind)
    ensures w.fields[i].kind.Nested? ==> WellFormed(w.fields[i].kind.schema)
  {
    var n: nat :| Declares(r, n) && Declares(w, n) && !KindReads(Lookup(r, n).value, Lookup(w, n).value);
    i := Find(w.fields, n).value;
    LookupDeclared(w, i);
  }

  // A schema that does not read another one's messages meets one it reads wrongly: with a telling
  // value, wrapped as deep as it takes.
  lemma {:induction false} Misread(r: Schema, w: Schema) returns (m: Message)
    requires WellFormed(w) && !Readable(r, w) && Depth(w) < 0x1_0000_0000
    ensures Canonical(w, m) && |Serialize(w, m)| <= 40 * (Depth(w) + 1)
    ensures Parse(r, Serialize(w, m)) != Some(View(r, m))
    decreases w
  {
    var i := WrongField(r, w);
    var reader, writer := Lookup(r, w.fields[i].number).value, w.fields[i].kind;
    if reader.Nested? && writer.Nested? {
      DepthOfField(w, |w.fields|, i);
      var inner := Misread(reader.schema, writer.schema);
      m := WrapMisread(r, w, i, reader.schema, writer.schema, inner);
    } else {
      m := TellingMisread(r, w, i);
    }
  }

  // ---- exactly ----

  ghost predicate ReadsAsView(r: Schema, w: Schema, m: Message) {
    Canonical(w, m) && |Serialize(w, m)| < U64 ==> Parse(r, Serialize(w, m)) == Some(View(r, m))
  }

  // Every message of the writer reads as the reader's view of it if and only if the reader declares
  // each shared field with the writer's type, or int64 for int32, nested messages likewise.
  lemma {:induction false} ReadableExactly(r: Schema, w: Schema)
    requires WellFormed(w) && Depth(w) < 0x1_0000_0000
    ensures (forall m: Message :: ReadsAsView(r, w, m)) <==> Readable(r, w)
  {
    if Readable(r, w) {
      forall m: Message
        ensures ReadsAsView(r, w, m)
      {
        if Canonical(w, m) && |Serialize(w, m)| < U64 {
          ReadsAcross(r, w, m);
        }
      }
    } else {
      var m := Misread(r, w);
      assert !ReadsAsView(r, w, m);
    }
  }
}
