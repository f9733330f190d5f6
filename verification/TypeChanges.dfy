/**
  Reading a writer's bytes with any reader's schema at all, compatible or not: exactly when that
  raises a DecodeError, and what it leaves of a field whose type was changed.
  */
module TypeChanges {
  import opened Basics
  import opened Varint
  import opened Wire
  import opened Schemas
  import opened Codec
  import opened Evolution
  import opened Merging

  // A string is read as a message, and its bytes are not one; or this happens inside a nested
  // message that both sides declare.
  ghost predicate Raises(r: Schema, w: Schema, m: Message)
    decreases w, 1
  {
    exists n: nat :: n in m && RaisesAt(r, w, m, n)
  }

  ghost predicate RaisesAt(r: Schema, w: Schema, m: Message, n: nat)
    decreases w, 0
  {
    n in m && Declares(r, n) && Declares(w, n) &&
    match (Lookup(r, n).value, Lookup(w, n).value, m[n])
    case (Nested(sub), Text, TextValue(data)) => Parse(sub, data).None?
    case (Nested(sub), Nested(x), MessageValue(fields)) => Raises(sub, x, fields)
    case _ => false
  }

  // ---- the records of a message ----

  lemma {:induction false} InRecords(w: Schema, k: nat, m: Message, i: nat)
    requires i < k <= |w.fields|
    ensures forall rec :: rec in RecordOf(w, i, m) ==> rec in RecordsOf(w, k, m)
    decreases k
  {
    if i < k - 1 {
      InRecords(w, k - 1, m, i);
    }
  }

  lemma {:induction false} FieldOfRecord(w: Schema, k: nat, m: Message, rec: Record) returns (i: nat)
    requires k <= |w.fields| && rec in RecordsOf(w, k, m)
    ensures i < k && rec in RecordOf(w, i, m)
    decreases k
  {
    var j := k - 1;
    if rec in RecordOf(w, j, m) {
      i := j;
    } else {
      i := FieldOfRecord(w, j, m, rec);
    }
  }

  // ---- failure ----

  // Of one written field the reader's store fails exactly when the value raises.
  lemma {:induction false} RecordFailsExactly(r: Schema, w: Schema, i: nat, m: Message)
    requires WellFormed(w) && i < |w.fields| && Canonical(w, m) && w.fields[i].number in m
    requires DataEncodable(RecordOf(w, i, m))
    ensures |RecordOf(w, i, m)| == 1
    ensures Malformed(r, RecordOf(w, i, m)[0]) <==> RaisesAt(r, w, m, w.fields[i].number)
    decreases w, 0, 0
  {
    var n := w.fields[i].number;
    RecordOfShape(w, i, m);
    LookupDeclared(w, i);
    if Declares(r, n) && Lookup(r, n).value.Nested? && m[n].MessageValue? {
      var fields := m[n].fields;
      assert RecordOf(w, i, m)[0] == Record(n, Bytes(Serialize(w.fields[i].kind.schema, fields)));
      ParseFailsExactly(Lookup(r, n).value.schema, w.fields[i].kind.schema, fields);
    }
  }

  // A DecodeError is raised if and only if, somewhere, a string is read as a message and its bytes
  // are not one. No change between other types ever raises.
  lemma {:induction false} ParseFailsExactly(r: Schema, w: Schema, m: Message)
    requires WellFormed(w) && Canonical(w, m) && |Serialize(w, m)| < U64
    ensures Parse(r, Serialize(w, m)) == None <==> Raises(r, w, m)
    decreases w, 1, 0
  {
    var rs := RecordsOf(w, |w.fields|, m);
    SerializedRecords(w, m);
    StoreAllFails(r, map[], rs);
    if rec :| rec in rs && Malformed(r, rec) {
      var i := FieldOfRecord(w, |w.fields|, m, rec);
      FailingRecordRaises(r, w, m, i, rec);
    }
    if Raises(r, w, m) {
      var n: nat :| n in m && RaisesAt(r, w, m, n);
      var i := Find(w.fields, n).value;
      RaisingFieldFails(r, w, m, i);
    }
  }

  lemma {:induction false} FailingRecordRaises(r: Schema, w: Schema, m: Message, i: nat, rec: Record)
    requires WellFormed(w) && Canonical(w, m) && DataEncodable(RecordsOf(w, |w.fields|, m))
    requires i < |w.fields| && rec in RecordOf(w, i, m) && Malformed(r, rec)
    ensures Raises(r, w, m)
    decreases w, 0, 1
  {
    InRecords(w, |w.fields|, m, i);
    RecordOfShape(w, i, m);
    RecordFailsExactly(r, w, i, m);
  }

  lemma {:induction false} RaisingFieldFails(r: Schema, w: Schema, m: Message, i: nat)
    requires WellFormed(w) && Canonical(w, m) && DataEncodable(RecordsOf(w, |w.fields|, m))
    requires i < |w.fields| && RaisesAt(r, w, m, w.fields[i].number)
    ensures exists rec :: rec in RecordsOf(w, |w.fields|, m) && Malformed(r, rec)
    decreases w, 0, 1
  {
    InRecords(w, |w.fields|, m, i);
    RecordFailsExactly(r, w, i, m);
    assert RecordOf(w, i, m)[0] in RecordsOf(w, |w.fields|, m);
  }

  // Somewhere the reader declares a message where the writer declares a string.
  ghost predicate TextReadAsMessage(r: Schema, w: Schema)
    decreases w
  {
    exists n: nat :: Declares(r, n) && Declares(w, n) && TextMeetsMessage(Lookup(r, n).value, Lookup(w, n).value)
  }

  ghost predicate TextMeetsMessage(reader: Kind, writer: Kind)
    decreases writer
  {
    match (reader, writer)
    case (Nested(_), Text) => true
    case (Nested(sub), Nested(x)) => TextReadAsMessage(sub, x)
    case _ => false
  }

  lemma {:induction false} RaisingMeetsText(r: Schema, w: Schema, m: Message, n: nat)
    requires n in m && RaisesAt(r, w, m, n)
    ensures TextMeetsMessage(Lookup(r, n).value, Lookup(w, n).value)
    decreases w
  {
    var x, y := Lookup(r, n).value, Lookup(w, n).value;
    if y.Nested? {
      var fields := m[n].fields;
      assert Raises(x.schema, y.schema, fields);
      var k: nat :| k in fields && RaisesAt(x.schema, y.schema, fields, k);
      RaisingMeetsText(x.schema, y.schema, fields, k);
    }
  }

  // Between two schemas without such a pair nothing raises, whatever other types changed.
  lemma {:induction false} NothingElseRaises(r: Schema, w: Schema, m: Message)
    requires WellFormed(w) && Canonical(w, m) && |Serialize(w, m)| < U64
    requires !TextReadAsMessage(r, w)
    ensures Parse(r, Serialize(w, m)).Some?
  {
    ParseFailsExactly(r, w, m);
    if Raises(r, w, m) {
      RaisingMeansPair(r, w, m);
    }
  }

  // A string of one zero byte is no message.
  lemma {:induction false} TextAsMessageRaises(r: Schema, w: Schema, n: nat)
    requires Declares(r, n) && Lookup(r, n).value.Nested? && Lookup(w, n) == Some(Text)
    ensures var m := map[n := TextValue([0])];
            Canonical(w, m) && Raises(r, w, m)
  {
    ZeroTagRejected([0]);
    var m := map[n := TextValue([0])];
    assert n in m && RaisesAt(r, w, m, n);
  }

  // Wherever the pair sits, some message raises: that string, wrapped as deep as it takes.
  lemma {:induction false} RaisingMessage(r: Schema, w: Schema) returns (m: Message)
    requires TextReadAsMessage(r, w)
    ensures Canonical(w, m) && Raises(r, w, m)
    decreases w
  {
    var n: nat :| Declares(r, n) && Declares(w, n) && TextMeetsMessage(Lookup(r, n).value, Lookup(w, n).value);
    var x, y := Lookup(r, n).value, Lookup(w, n).value;
    if y == Text {
      TextAsMessageRaises(r, w, n);
      m := map[n := TextValue([0])];
    } else {
      assert TextReadAsMessage(x.schema, y.schema);
      var inner := RaisingMessage(x.schema, y.schema);
      m := map[n := MessageValue(inner)];
      assert n in m && RaisesAt(r, w, m, n);
    }
  }

  ghost predicate RaisingFor(r: Schema, w: Schema, m: Message) {
    Canonical(w, m) && Raises(r, w, m)
  }

  // What the two schemas alone decide, both ways.
  lemma {:induction false} SomeMessageRaisesExactly(r: Schema, w: Schema)
    ensures (exists m: Message :: RaisingFor(r, w, m)) <==> TextReadAsMessage(r, w)
  {
    if TextReadAsMessage(r, w) {
      var m := RaisingMessage(r, w);
      assert RaisingFor(r, w, m);
    }
    forall m: Message | RaisingFor(r, w, m)
      ensures TextReadAsMessage(r, w)
    {
      RaisingMeansPair(r, w, m);
    }
  }

  lemma {:induction false} RaisingMeansPair(r: Schema, w: Schema, m: Message)
    requires Raises(r, w, m)
    ensures TextReadAsMessage(r, w)
  {
    var n: nat :| n in m && RaisesAt(r, w, m, n);
    RaisingMeetsText(r, w, m, n);
  }

  // ---- a field whose wire type changed ----

  function WireTypeOf(kind: Kind): nat {
    match kind
    case Text => 2
    case Double => 1
    case Int32 => 0
    case Int64 => 0
    case Nested(_) => 2
  }

  // A reader that declares the number with another wire type.
  predicate Unreadable(r: Schema, rec: Record) {
    Declares(r, rec.field) && WireTypeOf(Lookup(r, rec.field).value) != WireType(rec.payload)
  }

  lemma {:induction false} StoreLeavesOut(r: Schema, m: Message, rec: Record, n: nat)
    requires n !in m && (rec.field == n ==> Unreadable(r, rec)) && Store(r, m, rec).Some?
    ensures n !in Store(r, m, rec).value
  {
  }

  lemma {:induction false} StoreAllLeavesOut(r: Schema, m: Message, rs: seq<Record>, n: nat)
    requires n !in m && StoreAll(r, m, rs).Some?
    requires forall rec :: rec in rs && rec.field == n ==> Unreadable(r, rec)
    ensures n !in StoreAll(r, m, rs).value
    decreases |rs|
  {
    if rs != [] {
      var k := |rs| - 1;
      StoreAllLeavesOut(r, m, rs[..k], n);
      StoreLeavesOut(r, StoreAll(r, m, rs[..k]).value, rs[k], n);
    }
  }

  lemma {:induction false} WrittenWireType(w: Schema, i: nat, m: Message, rec: Record)
    requires WellFormed(w) && i < |w.fields| && Canonical(w, m) && rec in RecordOf(w, i, m)
    ensures Declares(w, rec.field) && WireType(rec.payload) == WireTypeOf(Lookup(w, rec.field).value)
  {
    RecordOfShape(w, i, m);
    LookupDeclared(w, i);
  }

  // Where the wire types of reader and writer differ, the value is missing from every result.
  lemma {:induction false} ChangedTypeIsMissing(r: Schema, w: Schema, m: Message, n: nat)
    requires WellFormed(w) && Canonical(w, m) && |Serialize(w, m)| < U64
    requires Declares(r, n) && Declares(w, n)
    requires WireTypeOf(Lookup(r, n).value) != WireTypeOf(Lookup(w, n).value)
    ensures var parsed := Parse(r, Serialize(w, m));
            parsed.Some? ==> n !in parsed.value
  {
    var rs := RecordsOf(w, |w.fields|, m);
    SerializedRecords(w, m);
    forall rec | rec in rs && rec.field == n
      ensures Unreadable(r, rec)
    {
      var i := FieldOfRecord(w, |w.fields|, m, rec);
      WrittenWireType(w, i, m, rec);
    }
    if Parse(r, Serialize(w, m)).Some? {
      StoreAllLeavesOut(r, map[], rs, n);
    }
  }

  // Parsing stores declared fields only.
  lemma {:induction false} StoresDeclaredOnly(r: Schema, rs: seq<Record>)
    requires StoreAll(r, map[], rs).Some?
    ensures forall n :: n in StoreAll(r, map[], rs).value ==> Declares(r, n)
    decreases |rs|
  {
    if rs != [] {
      StoresDeclaredOnly(r, rs[..|rs| - 1]);
    }
  }
}
