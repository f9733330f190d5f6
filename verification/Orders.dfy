/**
  The repository's own messages: Order in its two versions and Payment, as records on one side and
  schema messages on the other. Strings are their UTF-8 bytes and doubles their eight bytes.
  */
module Orders {
  import opened Basics
  import opened Varint
  import opened Wire
  import opened Schemas
  import opened Codec
  import opened Evolution
  import opened Histories
  import opened Envelope

  const TIMESTAMP := Schema([Field(1, Int64), Field(2, Int32)], {})

  const ORDER_V1 := Schema([Field(1, Text), Field(2, Text), Field(3, Text), Field(4, Double),
                            Field(5, Int32), Field(6, Nested(TIMESTAMP)), Field(7, Text)], {})

  const ORDER_V2 := Schema([Field(1, Text), Field(2, Text), Field(3, Text), Field(4, Double),
                            Field(5, Int32), Field(6, Nested(TIMESTAMP))], {7})

  const PAYMENT := Schema([Field(1, Text), Field(2, Text), Field(3, Text), Field(4, Double), Field(5, Text),
                           Field(6, Int32), Field(7, Text), Field(8, Nested(TIMESTAMP))], {})

  datatype Timestamp = Timestamp(seconds: int, nanos: int)

  datatype Order = Order(id: seq<byte>, customerId: seq<byte>, item: seq<byte>, amount: seq<byte>,
                         status: int, createdAt: Option<Timestamp>, region: seq<byte>)

  datatype Payment = Payment(paymentId: seq<byte>, orderId: seq<byte>, customerId: seq<byte>, amount: seq<byte>,
                             currency: seq<byte>, status: int, processor: seq<byte>, createdAt: Option<Timestamp>)

  // ---- records in and out of messages: zero scalars are not stored, missing ones read as zero ----

  function TextOf(data: seq<byte>): Option<Value> {
    if data == [] then None else Some(TextValue(data))
  }

  function DoubleOf(bits: seq<byte>): Option<Value> {
    if bits == ZERO_BITS then None else Some(DoubleValue(bits))
  }

  function IntOf(v: int): Option<Value> {
    if v == 0 then None else Some(IntValue(v))
  }

  function TimeOf(t: Option<Timestamp>): Option<Value> {
    if t.None? then None
    else Some(MessageValue(Pack(TIMESTAMP, [IntOf(t.value.seconds), IntOf(t.value.nanos)])))
  }

  // The message holding one optional value per declared field.
  function Pack(s: Schema, values: seq<Option<Value>>): Message
    requires |values| == |s.fields|
  {
    map n | n in Numbers(s) && values[Find(s.fields, n).value].Some? :: values[Find(s.fields, n).value].value
  }

  function Numbers(s: Schema): (r: set<nat>)
    ensures forall n :: n in r <==> Find(s.fields, n).Some?
  {
    set i | 0 <= i < |s.fields| :: s.fields[i].number
  }

  function GetText(m: Message, n: nat): seq<byte> {
    if n in m && m[n].TextValue? then m[n].data else []
  }

  function GetDouble(m: Message, n: nat): seq<byte> {
    if n in m && m[n].DoubleValue? then m[n].bits else ZERO_BITS
  }

  function GetInt(m: Message, n: nat): int {
    if n in m && m[n].IntValue? then m[n].n else 0
  }

  function GetTime(m: Message, n: nat): Option<Timestamp> {
    if n in m && m[n].MessageValue? then Some(Timestamp(GetInt(m[n].fields, 1), GetInt(m[n].fields, 2))) else None
  }

  function OrderValues(o: Order): seq<Option<Value>> {
    [TextOf(o.id), TextOf(o.customerId), TextOf(o.item), DoubleOf(o.amount), IntOf(o.status), TimeOf(o.createdAt),
     TextOf(o.region)]
  }

  function OrderMessage(o: Order): Message {
    Pack(ORDER_V1, OrderValues(o))
  }

  function OrderOf(m: Message): Order {
    Order(GetText(m, 1), GetText(m, 2), GetText(m, 3), GetDouble(m, 4), GetInt(m, 5), GetTime(m, 6), GetText(m, 7))
  }

  function PaymentValues(p: Payment): seq<Option<Value>> {
    [TextOf(p.paymentId), TextOf(p.orderId), TextOf(p.customerId), DoubleOf(p.amount), TextOf(p.currency),
     IntOf(p.status), TextOf(p.processor), TimeOf(p.createdAt)]
  }

  function PaymentMessage(p: Payment): Message {
    Pack(PAYMENT, PaymentValues(p))
  }

  function PaymentOf(m: Message): Payment {
    Payment(GetText(m, 1), GetText(m, 2), GetText(m, 3), GetDouble(m, 4), GetText(m, 5), GetInt(m, 6),
            GetText(m, 7), GetTime(m, 8))
  }

  // Enums travel as int32, seconds as int64; an enum value need not be one the schema names.
  predicate ValidTime(t: Option<Timestamp>) {
    t.Some? ==> FitsInt64(t.value.seconds) && FitsInt32(t.value.nanos)
  }

  predicate ValidOrder(o: Order) {
    |o.amount| == 8 && FitsInt32(o.status) && ValidTime(o.createdAt)
  }

  predicate ValidPayment(p: Payment) {
    |p.amount| == 8 && FitsInt32(p.status) && ValidTime(p.createdAt)
  }

  // ---- packing values into any schema ----

  ghost predicate ValueFits(s: Schema, values: seq<Option<Value>>, i: nat)
    requires i < |values| == |s.fields|
  {
    values[i].Some? ==> CanonicalValue(s.fields[i].kind, values[i].value)
  }

  lemma {:induction false} Packed(s: Schema, values: seq<Option<Value>>, i: nat)
    requires WellFormed(s) && i < |values| == |s.fields|
    ensures s.fields[i].number in Pack(s, values) <==> values[i].Some?
    ensures values[i].Some? ==> Pack(s, values)[s.fields[i].number] == values[i].value
  {
    assert Find(s.fields, s.fields[i].number) == Some(i);
  }

  lemma {:induction false} PackedCanonical(s: Schema, values: seq<Option<Value>>)
    requires WellFormed(s) && |values| == |s.fields|
    requires forall i :: 0 <= i < |values| ==> ValueFits(s, values, i)
    ensures Canonical(s, Pack(s, values))
  {
    forall n | n in Pack(s, values)
      ensures Declares(s, n) && CanonicalValue(Lookup(s, n).value, Pack(s, values)[n])
    {
      var i := Find(s.fields, n).value;
      Packed(s, values, i);
      assert ValueFits(s, values, i);
    }
  }

  // ---- the schemas are in order ----

  lemma {:induction false} TimestampWellFormed()
    ensures WellFormed(TIMESTAMP)
  {
  }

  lemma {:induction false} OrderV1WellFormed()
    ensures WellFormed(ORDER_V1)
  {
    TimestampWellFormed();
  }

  lemma {:induction false} OrderV2WellFormed()
    ensures WellFormed(ORDER_V2)
  {
    TimestampWellFormed();
  }

  lemma {:induction false} PaymentWellFormed()
    ensures WellFormed(PAYMENT)
  {
    TimestampWellFormed();
  }

  // ---- every record becomes a message of its schema and reads back as itself ----

  lemma {:induction false} TimeFits(t: Timestamp)
    requires ValidTime(Some(t))
    ensures CanonicalValue(Nested(TIMESTAMP), TimeOf(Some(t)).value)
  {
    TimestampWellFormed();
    var values := [IntOf(t.seconds), IntOf(t.nanos)];
    assert ValueFits(TIMESTAMP, values, 0) && ValueFits(TIMESTAMP, values, 1);
    PackedCanonical(TIMESTAMP, values);
  }

  lemma {:induction false} OrderCanonical(o: Order)
    requires ValidOrder(o)
    ensures Canonical(ORDER_V1, OrderMessage(o))
  {
    OrderV1WellFormed();
    if o.createdAt.Some? { TimeFits(o.createdAt.value); }
    var values := OrderValues(o);
    assert ValueFits(ORDER_V1, values, 0) && ValueFits(ORDER_V1, values, 1) && ValueFits(ORDER_V1, values, 2);
    assert ValueFits(ORDER_V1, values, 3) && ValueFits(ORDER_V1, values, 4) && ValueFits(ORDER_V1, values, 5);
    assert ValueFits(ORDER_V1, values, 6);
    PackedCanonical(ORDER_V1, values);
  }

  lemma {:induction false} PaymentCanonical(p: Payment)
    requires ValidPayment(p)
    ensures Canonical(PAYMENT, PaymentMessage(p))
  {
    PaymentWellFormed();
    if p.createdAt.Some? { TimeFits(p.createdAt.value); }
    var values := PaymentValues(p);
    assert ValueFits(PAYMENT, values, 0) && ValueFits(PAYMENT, values, 1) && ValueFits(PAYMENT, values, 2);
    assert ValueFits(PAYMENT, values, 3) && ValueFits(PAYMENT, values, 4) && ValueFits(PAYMENT, values, 5);
    assert ValueFits(PAYMENT, values, 6) && ValueFits(PAYMENT, values, 7);
    PackedCanonical(PAYMENT, values);
  }

  lemma {:induction false} TextReads(s: Schema, values: seq<Option<Value>>, n: nat, data: seq<byte>)
    requires WellFormed(s) && 1 <= n <= |values| == |s.fields| && s.fields[n - 1].number == n
    requires values[n - 1] == TextOf(data)
    ensures GetText(Pack(s, values), n) == data
  {
    Packed(s, values, n - 1);
  }

  lemma {:induction false} DoubleReads(s: Schema, values: seq<Option<Value>>, n: nat, bits: seq<byte>)
    requires WellFormed(s) && 1 <= n <= |values| == |s.fields| && s.fields[n - 1].number == n
    requires values[n - 1] == DoubleOf(bits)
    ensures GetDouble(Pack(s, values), n) == bits
  {
    Packed(s, values, n - 1);
  }

  lemma {:induction false} IntReads(s: Schema, values: seq<Option<Value>>, n: nat, v: int)
    requires WellFormed(s) && 1 <= n <= |values| == |s.fields| && s.fields[n - 1].number == n
    requires values[n - 1] == IntOf(v)
    ensures GetInt(Pack(s, values), n) == v
  {
    Packed(s, values, n - 1);
  }

  lemma {:induction false} TimeReads(s: Schema, values: seq<Option<Value>>, n: nat, t: Option<Timestamp>)
    requires WellFormed(s) && 1 <= n <= |values| == |s.fields| && s.fields[n - 1].number == n
    requires values[n - 1] == TimeOf(t)
    ensures GetTime(Pack(s, values), n) == t
  {
    Packed(s, values, n - 1);
    if t.Some? {
      TimestampWellFormed();
      var parts := [IntOf(t.value.seconds), IntOf(t.value.nanos)];
      IntReads(TIMESTAMP, parts, 1, t.value.seconds);
      IntReads(TIMESTAMP, parts, 2, t.value.nanos);
    }
  }

  lemma {:induction false} OrderReads(o: Order)
    ensures OrderOf(OrderMessage(o)) == o
  {
    OrderV1WellFormed();
    var values := OrderValues(o);
    TextReads(ORDER_V1, values, 1, o.id);
    TextReads(ORDER_V1, values, 2, o.customerId);
    TextReads(ORDER_V1, values, 3, o.item);
    DoubleReads(ORDER_V1, values, 4, o.amount);
    IntReads(ORDER_V1, values, 5, o.status);
    TimeReads(ORDER_V1, values, 6, o.createdAt);
    TextReads(ORDER_V1, values, 7, o.region);
  }

  lemma {:induction false} PaymentFieldsOneToFour(p: Payment)
    ensures var m := PaymentMessage(p);
            && GetText(m, 1) == p.paymentId && GetText(m, 2) == p.orderId && GetText(m, 3) == p.customerId
            && GetDouble(m, 4) == p.amount
  {
    PaymentWellFormed();
    var values := PaymentValues(p);
    TextReads(PAYMENT, values, 1, p.paymentId);
    TextReads(PAYMENT, values, 2, p.orderId);
    TextReads(PAYMENT, values, 3, p.customerId);
    DoubleReads(PAYMENT, values, 4, p.amount);
  }

  lemma {:induction false} PaymentFieldsFiveToEight(p: Payment)
    ensures var m := PaymentMessage(p);
            && GetText(m, 5) == p.currency && GetInt(m, 6) == p.status && GetText(m, 7) == p.processor
            && GetTime(m, 8) == p.createdAt
  {
    PaymentWellFormed();
    var values := PaymentValues(p);
    TextReads(PAYMENT, values, 5, p.currency);
    IntReads(PAYMENT, values, 6, p.status);
    TextReads(PAYMENT, values, 7, p.processor);
    TimeReads(PAYMENT, values, 8, p.createdAt);
  }

  lemma {:induction false} PaymentReads(p: Payment)
    ensures PaymentOf(PaymentMessage(p)) == p
  {
    PaymentFieldsOneToFour(p);
    PaymentFieldsFiveToEight(p);
  }

  // ---- round trips ----

  lemma {:induction false} OrderRoundTrip(o: Order)
    requires ValidOrder(o) && |Serialize(ORDER_V1, OrderMessage(o))| < U64
    ensures var parsed := Parse(ORDER_V1, Serialize(ORDER_V1, OrderMessage(o)));
            parsed.Some? && OrderOf(parsed.value) == o
  {
    OrderV1WellFormed();
    OrderCanonical(o);
    Evolution.RoundTrip(ORDER_V1, OrderMessage(o));
    OrderReads(o);
  }

  lemma {:induction false} PaymentRoundTrip(p: Payment)
    requires ValidPayment(p) && |Serialize(PAYMENT, PaymentMessage(p))| < U64
    ensures var parsed := Parse(PAYMENT, Serialize(PAYMENT, PaymentMessage(p)));
            parsed.Some? && PaymentOf(parsed.value) == p
  {
    PaymentWellFormed();
    PaymentCanonical(p);
    Evolution.RoundTrip(PAYMENT, PaymentMessage(p));
    PaymentReads(p);
  }

  // A negative enum or timestamp is sign-extended to 64 bits, which takes the full ten bytes.
  lemma {:induction false} NegativeTakesTenBytes(v: int)
    requires FitsInt64(v)
    ensures |Encode(FromInt(v))| == MAX_BYTES <==> v < 0
  {
    EncodedSize(FromInt(v));
    AtMostTenBytes(FromInt(v));
    CapacityTen();
    if v < 0 && |Encode(FromInt(v))| < 10 {
      CapacityMonotone(|Encode(FromInt(v))|, 9);
    }
  }

  // ---- from version 1 to version 2 and back ----

  lemma {:induction false} V2DropsRegion()
    ensures Without(ORDER_V2, ORDER_V1, 7)
    ensures Compatible(ORDER_V2, ORDER_V1) && Compatible(ORDER_V1, ORDER_V2)
  {
    OrderV1WellFormed();
    assert ORDER_V2.fields == TakenOut(ORDER_V1.fields, 6);
    DropField(ORDER_V2, ORDER_V1, 6);
    WithoutCompatible(ORDER_V2, ORDER_V1, 7);
  }

  // Version 2 retires the number it drops, so any later version that keeps doing so stays
  // compatible with version 1.
  lemma {:induction false} V2RetiresRegion()
    ensures Retires(ORDER_V1, ORDER_V2)
  {
    V2DropsRegion();
    forall n: nat | Declares(ORDER_V1, n)
      ensures Lookup(ORDER_V2, n) == if n == 7 then None else Lookup(ORDER_V1, n)
    {
    }
    forall n: nat | Declares(ORDER_V1, n) && Declares(ORDER_V2, n)
      ensures KindRetires(Lookup(ORDER_V1, n).value, Lookup(ORDER_V2, n).value)
    {
      assert Lookup(ORDER_V1, n) == Lookup(ORDER_V2, n);
      if Lookup(ORDER_V1, n).value.Nested? {
        RetiresItself(Lookup(ORDER_V1, n).value.schema);
      }
    }
  }

  lemma {:induction false} WithoutRegion(m: Message)
    ensures OrderOf(m - {7}) == OrderOf(m).(region := [])
  {
  }

  lemma {:induction false} V1ReadAsV1(id: nat, o: Order)
    requires id < 0x1_0000_0000
    requires ValidOrder(o) && |Serialize(ORDER_V1, OrderMessage(o))| < U64
    ensures var seen := Deserialize(ORDER_V1, Frame(id, Serialize(ORDER_V1, OrderMessage(o))));
            seen.Some? && OrderOf(seen.value) == o
  {
    FrameRoundTrip(id, Serialize(ORDER_V1, OrderMessage(o)));
    OrderRoundTrip(o);
  }

  // A version 2 consumer reads every framed version 1 order: all fields as written, no region.
  lemma {:induction false} V1ReadAsV2(id: nat, o: Order)
    requires id < 0x1_0000_0000
    requires ValidOrder(o) && |Serialize(ORDER_V1, OrderMessage(o))| < U64
    ensures var seen := Deserialize(ORDER_V2, Frame(id, Serialize(ORDER_V1, OrderMessage(o))));
            seen.Some? && 7 !in seen.value && OrderOf(seen.value) == o.(region := [])
  {
    var m := OrderMessage(o);
    OrderV1WellFormed();
    OrderCanonical(o);
    V2DropsRegion();
    DeserializesAcross(ORDER_V2, ORDER_V1, id, m);
    WithoutHidesOnly(ORDER_V2, ORDER_V1, 7, m);
    WithoutRegion(m);
    OrderReads(o);
  }

  lemma {:induction false} V2Canonical(o: Order)
    requires ValidOrder(o) && o.region == []
    ensures Canonical(ORDER_V1, OrderMessage(o)) && Canonical(ORDER_V2, OrderMessage(o))
  {
    var m := OrderMessage(o);
    OrderV1WellFormed();
    OrderCanonical(o);
    V2DropsRegion();
    Packed(ORDER_V1, OrderValues(o), 6);
    assert m - {7} == m;
    WithoutCanonical(ORDER_V2, ORDER_V1, 7, m);
  }

  lemma {:induction false} OrderV2RoundTrip(o: Order)
    requires ValidOrder(o) && o.region == [] && |Serialize(ORDER_V2, OrderMessage(o))| < U64
    ensures var parsed := Parse(ORDER_V2, Serialize(ORDER_V2, OrderMessage(o)));
            parsed.Some? && OrderOf(parsed.value) == o
  {
    OrderV2WellFormed();
    V2Canonical(o);
    Evolution.RoundTrip(ORDER_V2, OrderMessage(o));
    OrderReads(o);
  }

  // A version 1 consumer reads every framed version 2 order; its region is the empty string.
  lemma {:induction false} V2ReadAsV1(id: nat, o: Order)
    requires id < 0x1_0000_0000
    requires ValidOrder(o) && o.region == [] && |Serialize(ORDER_V2, OrderMessage(o))| < U64
    ensures var seen := Deserialize(ORDER_V1, Frame(id, Serialize(ORDER_V2, OrderMessage(o))));
            seen.Some? && OrderOf(seen.value) == o
  {
    var m := OrderMessage(o);
    OrderV2WellFormed();
    V2DropsRegion();
    V2Canonical(o);
    DeserializesAcross(ORDER_V1, ORDER_V2, id, m);
    OwnViewIsAll(ORDER_V1, m);
    OrderReads(o);
  }

  // ---- the bytes themselves ----

  function TextRecords(n: nat, data: seq<byte>): seq<Record> {
    if data == [] then [] else [Record(n, Bytes(data))]
  }

  function DoubleRecords(n: nat, bits: seq<byte>): seq<Record> {
    if bits == ZERO_BITS then [] else [Record(n, Fixed64(bits))]
  }

  function IntRecords(n: nat, v: int): seq<Record> {
    if v == 0 then [] else [Record(n, Number(FromInt(v)))]
  }

  function NestedRecords(n: nat, sub: Schema, v: Option<Value>): seq<Record> {
    if v.Some? && v.value.MessageValue? then [Record(n, Bytes(Serialize(sub, v.value.fields)))] else []
  }

  predicate FieldAt(s: Schema, n: nat, kind: Kind) {
    1 <= n <= |s.fields| && s.fields[n - 1] == Field(n, kind)
  }

  // What one declared field of a message is written as.
  ghost predicate Writes(s: Schema, m: Message, i: nat, records: seq<Record>) {
    i < |s.fields| && RecordOf(s, i, m) == records
  }

  lemma {:induction false} WritesText(s: Schema, values: seq<Option<Value>>, n: nat, data: seq<byte>)
    requires WellFormed(s) && |values| == |s.fields| && FieldAt(s, n, Text) && values[n - 1] == TextOf(data)
    ensures Writes(s, Pack(s, values), n - 1, TextRecords(n, data))
  {
    Packed(s, values, n - 1);
  }

  lemma {:induction false} WritesDouble(s: Schema, values: seq<Option<Value>>, n: nat, bits: seq<byte>)
    requires WellFormed(s) && |values| == |s.fields| && FieldAt(s, n, Double) && values[n - 1] == DoubleOf(bits)
    ensures Writes(s, Pack(s, values), n - 1, DoubleRecords(n, bits))
  {
    Packed(s, values, n - 1);
  }

  lemma {:induction false} WritesInt(s: Schema, values: seq<Option<Value>>, n: nat, v: int)
    requires WellFormed(s) && |values| == |s.fields| && FieldAt(s, n, Int32) && values[n - 1] == IntOf(v)
    ensures Writes(s, Pack(s, values), n - 1, IntRecords(n, v))
  {
    Packed(s, values, n - 1);
  }

  lemma {:induction false} NestedRecord(s: Schema, m: Message, i: nat, n: nat, sub: Schema)
    requires i < |s.fields| && s.fields[i] == Field(n, Nested(sub))
    ensures RecordOf(s, i, m) == NestedRecords(n, sub, if n in m then Some(m[n]) else None)
  {
  }

  lemma {:induction false} WritesNested(s: Schema, values: seq<Option<Value>>, n: nat, sub: Schema)
    requires WellFormed(s) && |values| == |s.fields| && FieldAt(s, n, Nested(sub))
    ensures Writes(s, Pack(s, values), n - 1, NestedRecords(n, sub, values[n - 1]))
  {
    var i, m := n - 1, Pack(s, values);
    Packed(s, values, i);
    NestedRecord(s, m, i, n, sub);
  }

  function Joined(parts: seq<seq<Record>>): seq<Record> {
    if parts == [] then [] else Joined(parts[..|parts| - 1]) + parts[|parts| - 1]
  }

  // A message is its fields' records in declaration order.
  lemma {:induction false} WrittenInOrder(s: Schema, k: nat, m: Message, parts: seq<seq<Record>>)
    requires k <= |s.fields| == |parts|
    requires forall i :: 0 <= i < |parts| ==> Writes(s, m, i, parts[i])
    ensures RecordsOf(s, k, m) == Joined(parts[..k])
    decreases k
  {
    if k > 0 {
      var j := k - 1;
      WrittenInOrder(s, j, m, parts);
      assert parts[..k][..j] == parts[..j];
      assert Writes(s, m, j, parts[j]);
    }
  }

  function OrderParts(o: Order): seq<seq<Record>> {
    [TextRecords(1, o.id), TextRecords(2, o.customerId), TextRecords(3, o.item), DoubleRecords(4, o.amount),
     IntRecords(5, o.status), NestedRecords(6, TIMESTAMP, TimeOf(o.createdAt)), TextRecords(7, o.region)]
  }

  lemma {:induction false} OrderTextWrites(s: Schema, values: seq<Option<Value>>, o: Order, i: nat)
    requires s == ORDER_V1 && values == OrderValues(o) && (i < 3 || i == 6)
    ensures Writes(s, Pack(s, values), i, OrderParts(o)[i])
  {
    OrderV1WellFormed();
    WritesText(s, values, i + 1, if i == 0 then o.id else if i == 1 then o.customerId else if i == 2 then o.item
                                 else o.region);
  }

  lemma {:induction false} OrderWrites(s: Schema, values: seq<Option<Value>>, o: Order, i: nat)
    requires s == ORDER_V1 && values == OrderValues(o) && i < 7
    ensures Writes(s, Pack(s, values), i, OrderParts(o)[i])
  {
    OrderV1WellFormed();
    if i == 3 {
      WritesDouble(s, values, 4, o.amount);
    } else if i == 4 {
      WritesInt(s, values, 5, o.status);
    } else if i == 5 {
      WritesNested(s, values, 6, TIMESTAMP);
    } else {
      OrderTextWrites(s, values, o, i);
    }
  }

  // The bytes of every order: its fields in declaration order, empty ones left out.
  lemma {:induction false} OrderBytes(o: Order)
    ensures Serialize(ORDER_V1, OrderMessage(o)) == EncodeAll(Joined(OrderParts(o)))
  {
    var s, values, parts := ORDER_V1, OrderValues(o), OrderParts(o);
    forall i | 0 <= i < |parts|
      ensures Writes(s, Pack(s, values), i, parts[i])
    {
      OrderWrites(s, values, o, i);
    }
    WrittenInOrder(s, 7, Pack(s, values), parts);
    assert parts[..7] == parts;
  }

  function PaymentParts(p: Payment): seq<seq<Record>> {
    [TextRecords(1, p.paymentId), TextRecords(2, p.orderId), TextRecords(3, p.customerId), DoubleRecords(4, p.amount),
     TextRecords(5, p.currency), IntRecords(6, p.status), TextRecords(7, p.processor),
     NestedRecords(8, TIMESTAMP, TimeOf(p.createdAt))]
  }

  lemma {:induction false} PaymentWritesFirst(s: Schema, values: seq<Option<Value>>, p: Payment, i: nat)
    requires WellFormed(s) && |s.fields| == 8 && values == PaymentValues(p) && i < 4
    requires FieldAt(s, 1, Text) && FieldAt(s, 2, Text) && FieldAt(s, 3, Text) && FieldAt(s, 4, Double)
    ensures Writes(s, Pack(s, values), i, PaymentParts(p)[i])
  {
    if i == 0 {
      WritesText(s, values, 1, p.paymentId);
    } else if i == 1 {
      WritesText(s, values, 2, p.orderId);
    } else if i == 2 {
      WritesText(s, values, 3, p.customerId);
    } else {
      WritesDouble(s, values, 4, p.amount);
    }
  }

  lemma {:induction false} PaymentWritesLast(s: Schema, values: seq<Option<Value>>, p: Payment, i: nat)
    requires s == PAYMENT && values == PaymentValues(p) && 4 <= i < 8
    ensures Writes(s, Pack(s, values), i, PaymentParts(p)[i])
  {
    PaymentWellFormed();
    if i == 4 {
      WritesText(s, values, 5, p.currency);
    } else if i == 5 {
      WritesInt(s, values, 6, p.status);
    } else if i == 6 {
      WritesText(s, values, 7, p.processor);
    } else {
      WritesNested(s, values, 8, TIMESTAMP);
    }
  }

  // The bytes of every payment, likewise.
  lemma {:induction false} PaymentBytes(p: Payment)
    ensures Serialize(PAYMENT, PaymentMessage(p)) == EncodeAll(Joined(PaymentParts(p)))
  {
    var s, values, parts := PAYMENT, PaymentValues(p), PaymentParts(p);
    PaymentWellFormed();
    forall i | 0 <= i < |parts|
      ensures Writes(s, Pack(s, values), i, parts[i])
    {
      if i < 4 { PaymentWritesFirst(s, values, p, i); } else { PaymentWritesLast(s, values, p, i); }
    }
    WrittenInOrder(s, 8, Pack(s, values), parts);
    assert parts[..8] == parts;
  }

  // And of every timestamp.
  lemma {:induction false} TimeBytes(t: Timestamp)
    requires ValidTime(Some(t))
    ensures TimeOf(Some(t)).value.MessageValue?
    ensures Serialize(TIMESTAMP, TimeOf(Some(t)).value.fields)
            == EncodeAll(IntRecords(1, t.seconds) + IntRecords(2, t.nanos))
  {
    var s, values := TIMESTAMP, [IntOf(t.seconds), IntOf(t.nanos)];
    TimestampWellFormed();
    Packed(s, values, 0);
    Packed(s, values, 1);
    TwoInts(s, Pack(s, values), t.seconds, t.nanos);
  }

  lemma {:induction false} TwoInts(s: Schema, m: Message, seconds: int, nanos: int)
    requires s.fields == [Field(1, Int64), Field(2, Int32)]
    requires 1 in m <==> seconds != 0
    requires 2 in m <==> nanos != 0
    requires 1 in m ==> m[1] == IntValue(seconds)
    requires 2 in m ==> m[2] == IntValue(nanos)
    ensures RecordsOf(s, 2, m) == IntRecords(1, seconds) + IntRecords(2, nanos)
  {
    assert RecordOf(s, 0, m) == IntRecords(1, seconds);
    assert RecordOf(s, 1, m) == IntRecords(2, nanos);
    assert RecordsOf(s, 0, m) == [];
    assert RecordsOf(s, 1, m) == [] + IntRecords(1, seconds);
  }

  lemma {:induction false} JoinedSnoc(parts: seq<seq<Record>>, last: seq<Record>)
    ensures Joined(parts + [last]) == Joined(parts) + last
  {
    assert (parts + [last])[..|parts|] == parts;
  }

  function Singles(records: seq<Record>): seq<seq<Record>> {
    seq(|records|, i requires 0 <= i < |records| => [records[i]])
  }

  lemma {:induction false} JoinedSingles(records: seq<Record>)
    ensures Joined(Singles(records)) == records
    decreases |records|
  {
    if records != [] {
      var n := |records| - 1;
      JoinedSingles(records[..n]);
      JoinedSnoc(Singles(records[..n]), [records[n]]);
      assert Singles(records) == Singles(records[..n]) + [[records[n]]];
    }
  }

  lemma {:induction false} JoinedFive(a: Record, b: Record, c: Record, d: Record, e: Record)
    ensures Joined([[a], [b], [c], [d], [e], [], []]) == [a, b, c, d, e]
  {
    var singles := Singles([a, b, c, d, e]);
    JoinedSingles([a, b, c, d, e]);
    JoinedSnoc(singles, []);
    JoinedSnoc(singles + [[]], []);
    assert singles + [[]] + [[]] == [[a], [b], [c], [d], [e], [], []];
  }

  // Fields 1 to 15 have one-byte tags, and data under 128 bytes a one-byte length.
  lemma {:induction false} ShortRecords(n: nat, data: seq<byte>, v: nat)
    requires 1 <= n < 16 && |data| < 128 && v < 128
    ensures EncodeRecord(Record(n, Bytes(data))) == [8 * n + 2, |data|] + data
    ensures EncodeRecord(Record(n, Fixed64(data))) == [8 * n + 1] + data
    ensures EncodeRecord(Record(n, Number(v))) == [8 * n, v]
  {
    assert [8 * n + 2] + ([|data|] + data) == [8 * n + 2, |data|] + data;
  }

  lemma {:induction false} EncodeFirst(first: Record, others: seq<Record>)
    ensures EncodeAll([first] + others) == EncodeRecord(first) + EncodeAll(others)
  {
    assert ([first] + others)[1..] == others;
  }

  lemma {:induction false} InFront(a: Record, b: Record, c: Record, d: Record, e: Record)
    ensures [a, b, c, d, e] == [a] + ([b] + ([c] + ([d] + ([e] + []))))
  {
  }

  // Five short fields and their bytes, both ways.
  lemma {:induction false} FiveRecords(id: seq<byte>, customer: seq<byte>, item: seq<byte>, amount: seq<byte>,
                                       status: byte)
    requires |id| < 128 && |customer| < 128 && |item| < 128 && |amount| == 8 && status < 128
    ensures var records := [Record(1, Bytes(id))] + ([Record(2, Bytes(customer))] + ([Record(3, Bytes(item))]
                           + ([Record(4, Fixed64(amount))] + ([Record(5, Number(status))] + []))));
            var bytes := ([0x0a, |id|] + id) + (([0x12, |customer|] + customer) + (([0x1a, |item|] + item)
                         + (([0x21] + amount) + ([0x28, status] + []))));
            EncodeAll(records) == bytes && DecodeAll(bytes) == Some(records)
  {
    ShortRecords(1, id, 0);
    ShortRecords(2, customer, 0);
    ShortRecords(3, item, 0);
    ShortRecords(4, amount, 0);
    ShortRecords(5, [], status);
    var e := [Record(5, Number(status))] + [];
    var d := [Record(4, Fixed64(amount))] + e;
    var c := [Record(3, Bytes(item))] + d;
    var b := [Record(2, Bytes(customer))] + c;
    EncodeFirst(Record(5, Number(status)), []);
    EncodeFirst(Record(4, Fixed64(amount)), e);
    EncodeFirst(Record(3, Bytes(item)), d);
    EncodeFirst(Record(2, Bytes(customer)), c);
    EncodeFirst(Record(1, Bytes(id)), b);
    RoundTripAll([Record(1, Bytes(id))] + b);
  }

  // Short, non-empty fields, and neither time nor region.
  predicate Short(o: Order) {
    && 0 < |o.id| < 128 && 0 < |o.customerId| < 128 && 0 < |o.item| < 128
    && |o.amount| == 8 && o.amount != ZERO_BITS && 0 < o.status < 128
    && o.createdAt == None && o.region == []
  }

  lemma {:induction false} ShortParts(o: Order)
    requires Short(o)
    ensures OrderParts(o) == [[Record(1, Bytes(o.id))], [Record(2, Bytes(o.customerId))], [Record(3, Bytes(o.item))],
                              [Record(4, Fixed64(o.amount))], [Record(5, Number(o.status))], [], []]
  {
    assert FromInt(o.status) == o.status;
  }

  // What the serializer writes for such an order; the documented 32 bytes are an instance.
  lemma {:induction false} ShortOrderLayout(o: Order)
    requires Short(o)
    ensures Serialize(ORDER_V1, OrderMessage(o))
            == ([0x0a, |o.id|] + o.id) + (([0x12, |o.customerId|] + o.customerId) + (([0x1a, |o.item|] + o.item)
               + (([0x21] + o.amount) + ([0x28, o.status] + []))))
  {
    OrderBytes(o);
    ShortParts(o);
    JoinedFive(Record(1, Bytes(o.id)), Record(2, Bytes(o.customerId)), Record(3, Bytes(o.item)),
               Record(4, Fixed64(o.amount)), Record(5, Number(o.status)));
    InFront(Record(1, Bytes(o.id)), Record(2, Bytes(o.customerId)), Record(3, Bytes(o.item)),
            Record(4, Fixed64(o.amount)), Record(5, Number(o.status)));
    FiveRecords(o.id, o.customerId, o.item, o.amount, o.status);
  }
}
