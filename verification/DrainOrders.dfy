/**
  The backward compatibility simulation: one topic of framed version 1 orders, drained by a version
  1 consumer and by a version 2 consumer.
  */
module DrainOrders {
  import opened Varint
  import opened Schemas
  import opened Codec
  import opened Envelope
  import opened Orders
  import opened Drain

  // A log whose messages are these orders, written by a version 1 producer.
  ghost predicate WritesOrders(log: seq<Bytes>, id: nat, orders: seq<Order>) {
    && id < 0x1_0000_0000
    && |log| == |orders|
    && (forall i :: 0 <= i < |orders| ==> WritesOrder(log[i], id, orders[i]))
  }

  ghost predicate WritesOrder(data: Bytes, id: nat, o: Order)
    requires id < 0x1_0000_0000
  {
    && ValidOrder(o)
    && |Serialize(ORDER_V1, OrderMessage(o))| < U64
    && data == Frame(id, Serialize(ORDER_V1, OrderMessage(o)))
  }

  ghost predicate OrdersTopic(logs: seq<seq<Bytes>>, id: nat, orders: seq<seq<Order>>) {
    |logs| == |orders| && forall p :: 0 <= p < |logs| ==> WritesOrders(logs[p], id, orders[p])
  }

  lemma {:induction false} BothDecode(data: Bytes, id: nat, o: Order)
    requires id < 0x1_0000_0000 && WritesOrder(data, id, o)
    ensures Deserialize(ORDER_V1, data).Some? && OrderOf(Deserialize(ORDER_V1, data).value) == o
    ensures Deserialize(ORDER_V2, data).Some? && OrderOf(Deserialize(ORDER_V2, data).value) == o.(region := [])
  {
    V1ReadAsV1(id, o);
    V1ReadAsV2(id, o);
  }

  // Neither drain ever fails.
  lemma {:induction false} TopicDecodable(logs: seq<seq<Bytes>>, id: nat, orders: seq<seq<Order>>)
    requires OrdersTopic(logs, id, orders)
    ensures Decodable(ORDER_V1, logs) && Decodable(ORDER_V2, logs)
  {
    forall p, i | 0 <= p < |logs| && 0 <= i < |logs[p]|
      ensures Deserialize(ORDER_V1, logs[p][i]).Some? && Deserialize(ORDER_V2, logs[p][i]).Some?
    {
      assert WritesOrders(logs[p], id, orders[p]);
      BothDecode(logs[p][i], id, orders[p][i]);
    }
  }

  // What a returned drain holds of one partition: its orders from the start position on, at their
  // offsets, as the consumer's version shows them.
  ghost predicate ShowsOrders(items: seq<Item>, orders: seq<Order>, from: nat, hideRegion: bool) {
    && from <= |orders| && |items| == |orders| - from
    && (forall i :: 0 <= i < |items| ==>
          && items[i].offset == from + i
          && OrderOf(items[i].content)
             == if hideRegion then orders[from + i].(region := []) else orders[from + i])
  }

  lemma {:induction false} ReadsShow(schema: Schema, log: seq<Bytes>, id: nat, orders: seq<Order>, p: nat, from: nat,
                                     items: seq<Item>, hideRegion: bool)
    requires WritesOrders(log, id, orders) && schema == if hideRegion then ORDER_V2 else ORDER_V1
    requires Reads(schema, log, p, from, items) && |items| == |log| - from
    ensures ShowsOrders(items, orders, from, hideRegion)
  {
    forall i | 0 <= i < |items|
      ensures items[i].offset == from + i
      ensures OrderOf(items[i].content) == if hideRegion then orders[from + i].(region := []) else orders[from + i]
    {
      BothDecode(log[from + i], id, orders[from + i]);
    }
  }

  // Whatever the two schedules, two drains of the quiet topic from the same positions cover the
  // same offsets of every partition both were given; version 1 shows the orders as they were
  // written and version 2 shows them with the region gone.
  lemma {:induction false} BothVersionsAgree(s0: State, id: nat, orders: seq<seq<Order>>,
                                             polls1: seq<Poll>, polls2: seq<Poll>, p: nat)
    requires Fresh(s0) && OrdersTopic(s0.logs, id, orders) && Quiet(polls1) && Quiet(polls2)
    requires Given(polls1, |orders|, p) && Drained(ORDER_V1, s0, polls1).status == Finished
    requires Given(polls2, |orders|, p) && Drained(ORDER_V2, s0, polls2).status == Finished
    ensures ShowsOrders(From(Drained(ORDER_V1, s0, polls1).results, p), orders[p], s0.positions[p], false)
    ensures ShowsOrders(From(Drained(ORDER_V2, s0, polls2).results, p), orders[p], s0.positions[p], true)
  {
    QuietDrainComplete(ORDER_V1, s0, polls1, p);
    QuietDrainComplete(ORDER_V2, s0, polls2, p);
    assert WritesOrders(s0.logs[p], id, orders[p]);
    ReadsShow(ORDER_V1, s0.logs[p], id, orders[p], p, s0.positions[p],
              From(Drained(ORDER_V1, s0, polls1).results, p), false);
    ReadsShow(ORDER_V2, s0.logs[p], id, orders[p], p, s0.positions[p],
              From(Drained(ORDER_V2, s0, polls2).results, p), true);
  }
}
