/**
  The draining loop: poll until every assigned partition has reported its end, deserializing each
  message on the way.

  Assumed of the client library: it hands over the messages of a partition one by one, it reports a
  partition's end only when it has handed over everything there is, and the group has a single
  member, so that its assignment, once made, does not change.
  */
module Drain {
  import opened Basics
  import opened Varint
  import opened Schemas
  import opened Codec
  import opened Envelope

  type Bytes = seq<byte>

  datatype Item = Item(partition: nat, offset: nat, content: Codec.Message)

  datatype Status = Polling | Finished | Failed

  datatype State = State(
    logs: seq<seq<Bytes>>,    // one log a partition; they may grow meanwhile
    positions: seq<nat>,      // next offset to hand over, one a partition
    assignment: set<nat>,
    ended: set<nat>,
    results: seq<Item>,
    status: Status
  )

  // What one call of poll brings, or what happens around it.
  datatype Poll =
    | Nothing                     // a timeout, or an error that is not the end of a partition
    | Next(partition: nat)
    | EndOf(partition: nat)
    | Assign(partitions: set<nat>)
    | Grow(partition: nat, data: Bytes)

  predicate Offered(s: State, p: nat)
    requires |s.positions| == |s.logs|
  {
    p in s.assignment && p < |s.logs| && s.positions[p] < |s.logs[p]|
  }

  predicate AtEnd(s: State, p: nat)
    requires |s.positions| == |s.logs|
  {
    p in s.assignment && p < |s.logs| && s.positions[p] >= |s.logs[p]|
  }

  function Deliver(schema: Schema, s: State, p: nat): State
    requires |s.positions| == |s.logs| && Offered(s, p)
  {
    var at := s.positions[p];
    match Deserialize(schema, s.logs[p][at])
    case None => s.(status := Failed)
    case Some(content) =>
      s.(positions := s.positions[p := at + 1], results := s.results + [Item(p, at, content)])
  }

  function ReportEnd(s: State, p: nat): State {
    var ended := s.ended + {p};
    s.(ended := ended, status := if s.assignment != {} && s.assignment <= ended then Finished else s.status)
  }

  function Step(schema: Schema, s: State, e: Poll): State
    requires |s.positions| == |s.logs|
  {
    match e
    case Nothing => s
    case Next(p) => if Offered(s, p) then Deliver(schema, s, p) else s
    case EndOf(p) => if AtEnd(s, p) then ReportEnd(s, p) else s
    case Assign(ps) => if s.assignment == {} then s.(assignment := set p | p in ps && p < |s.logs|) else s
    case Grow(p, data) => if p < |s.logs| then s.(logs := s.logs[p := s.logs[p] + [data]]) else s
  }

  // The loop over a schedule of polls.
  function Drained(schema: Schema, s: State, polls: seq<Poll>): (r: State)
    requires |s.positions| == |s.logs|
    ensures |r.positions| == |r.logs| == |s.logs|
    decreases |polls|
  {
    if s.status != Polling || polls == [] then s else Drained(schema, Step(schema, s, polls[0]), polls[1..])
  }

  // A consumer that has just subscribed.
  predicate Fresh(s: State) {
    && |s.positions| == |s.logs|
    && (forall p :: 0 <= p < |s.logs| ==> s.positions[p] <= |s.logs[p]|)
    && s.assignment == {} && s.ended == {} && s.results == [] && s.status == Polling
  }

  // The results of one partition, in order.
  function From(results: seq<Item>, p: nat): seq<Item> {
    if results == [] then []
    else
      var last := results[|results| - 1];
      From(results[..|results| - 1], p) + if last.partition == p then [last] else []
  }

  // These items are the messages of a log from an offset on, each deserialized.
  ghost predicate Reads(schema: Schema, log: seq<Bytes>, p: nat, from: nat, items: seq<Item>) {
    && from + |items| <= |log|
    && (forall i :: 0 <= i < |items| ==>
          && items[i].partition == p
          && items[i].offset == from + i
          && Deserialize(schema, log[from + i]) == Some(items[i].content))
  }

  // What the loop has done to one partition since it started at s0.
  ghost predicate PartitionKept(schema: Schema, s0: State, s: State, p: nat)
    requires |s.positions| == |s.logs| == |s0.positions| == |s0.logs| && p < |s.logs|
  {
    var items := From(s.results, p);
    && s0.logs[p] <= s.logs[p]
    && s.positions[p] == s0.positions[p] + |items|
    && Reads(schema, s.logs[p], p, s0.positions[p], items)
    && (p in s.ended ==> s.positions[p] >= |s0.logs[p]|)
  }

  // The next message of a partition does not deserialize.
  predicate Undecodable(schema: Schema, s: State, p: nat)
    requires |s.positions| == |s.logs|
  {
    Offered(s, p) && Deserialize(schema, s.logs[p][s.positions[p]]).None?
  }

  ghost predicate Kept(schema: Schema, s0: State, s: State) {
    && |s.positions| == |s.logs| == |s0.positions| == |s0.logs|
    && (forall p :: 0 <= p < |s.logs| ==> PartitionKept(schema, s0, s, p))
    && (forall p :: p in s.assignment ==> p < |s.logs|)
    && s.ended <= s.assignment
    && (forall item :: item in s.results ==> item.partition in s.assignment)
    && (s.status == Failed ==> exists p: nat :: Undecodable(schema, s, p))
    && (s.status != Failed ==> (s.status == Finished <==> s.assignment != {} && s.assignment <= s.ended))
  }

  lemma {:induction false} FromSnoc(results: seq<Item>, item: Item, p: nat)
    ensures From(results + [item], p) == From(results, p) + if item.partition == p then [item] else []
  {
    assert (results + [item])[..|results|] == results;
  }

  lemma {:induction false} DeliverKeepsPartition(schema: Schema, s0: State, s: State, p: nat, q: nat)
    requires |s.positions| == |s.logs| == |s0.positions| == |s0.logs| && q < |s.logs|
    requires PartitionKept(schema, s0, s, q) && Offered(s, p)
    ensures PartitionKept(schema, s0, Deliver(schema, s, p), q)
  {
    var at := s.positions[p];
    match Deserialize(schema, s.logs[p][at])
    case None =>
    case Some(content) => FromSnoc(s.results, Item(p, at, content), q);
  }

  lemma {:induction false} DeliverKept(schema: Schema, s0: State, s: State, p: nat)
    requires Kept(schema, s0, s) && s.status == Polling && Offered(s, p)
    ensures Kept(schema, s0, Deliver(schema, s, p))
  {
    var t := Deliver(schema, s, p);
    forall q | 0 <= q < |t.logs|
      ensures PartitionKept(schema, s0, t, q)
    {
      DeliverKeepsPartition(schema, s0, s, p, q);
    }
    if t.status == Failed {
      assert Undecodable(schema, t, p);
    }
  }

  lemma {:induction false} EndKept(schema: Schema, s0: State, s: State, p: nat)
    requires Kept(schema, s0, s) && s.status == Polling && AtEnd(s, p)
    ensures Kept(schema, s0, ReportEnd(s, p))
  {
    var t := ReportEnd(s, p);
    forall q | 0 <= q < |t.logs|
      ensures PartitionKept(schema, s0, t, q)
    {
      assert PartitionKept(schema, s0, s, q);
    }
  }

  lemma {:induction false} StepKept(schema: Schema, s0: State, s: State, e: Poll)
    requires Kept(schema, s0, s) && s.status == Polling
    ensures Kept(schema, s0, Step(schema, s, e))
  {
    var t := Step(schema, s, e);
    match e {
      case Nothing =>
      case Next(p) => if Offered(s, p) { DeliverKept(schema, s0, s, p); }
      case EndOf(p) => if AtEnd(s, p) { EndKept(schema, s0, s, p); }
      case Assign(_) =>
        forall q | 0 <= q < |t.logs|
          ensures PartitionKept(schema, s0, t, q)
        {
          assert PartitionKept(schema, s0, s, q);
        }
      case Grow(_, _) =>
        forall q | 0 <= q < |t.logs|
          ensures PartitionKept(schema, s0, t, q)
        {
          assert PartitionKept(schema, s0, s, q);
        }
    }
  }

  lemma {:induction false} DrainedKept(schema: Schema, s0: State, s: State, polls: seq<Poll>)
    requires Kept(schema, s0, s)
    ensures Kept(schema, s0, Drained(schema, s, polls))
    decreases |polls|
  {
    if s.status == Polling && polls != [] {
      StepKept(schema, s0, s, polls[0]);
      DrainedKept(schema, s0, Step(schema, s, polls[0]), polls[1..]);
    }
  }

  lemma {:induction false} FreshKept(schema: Schema, s: State)
    requires Fresh(s)
    ensures Kept(schema, s, s)
  {
    forall p | 0 <= p < |s.logs|
      ensures PartitionKept(schema, s, s, p)
    {
      assert From(s.results, p) == [];
    }
  }

  // The loop on any schedule, growing topics included. What it has gathered of a partition is every
  // message from the start position up to where it stands, in order and deserialized, and nothing
  // else; when it returns, that covers at least all the messages there were when it began. It stops
  // early only at a message that does not deserialize.
  lemma {:induction false} DrainsExactly(schema: Schema, s0: State, polls: seq<Poll>)
    requires Fresh(s0)
    ensures var s := Drained(schema, s0, polls);
            && (forall p :: p in s.assignment ==>
                  && p < |s.logs| && s0.logs[p] <= s.logs[p]
                  && Reads(schema, s.logs[p], p, s0.positions[p], From(s.results, p))
                  && (s.status == Finished ==> s0.positions[p] + |From(s.results, p)| >= |s0.logs[p]|))
            && (forall item :: item in s.results ==> item.partition in s.assignment)
            && (s.status != Failed ==> (s.status == Finished <==> s.assignment != {} && s.assignment <= s.ended))
            && (s.status == Failed ==> exists p: nat :: Undecodable(schema, s, p))
  {
    FreshKept(schema, s0);
    DrainedKept(schema, s0, s0, polls);
    var s := Drained(schema, s0, polls);
    forall p | p in s.assignment
      ensures PartitionKept(schema, s0, s, p)
    {
    }
  }

  // What a schedule adds to a partition.
  function Arrivals(polls: seq<Poll>, p: nat): seq<Bytes> {
    if polls == [] then []
    else (if polls[0].Grow? && polls[0].partition == p then [polls[0].data] else []) + Arrivals(polls[1..], p)
  }

  // While the drain goes on, every arrival is in its log.
  lemma {:induction false} LogsGrow(schema: Schema, s: State, polls: seq<Poll>, p: nat)
    requires |s.positions| == |s.logs| && p < |s.logs| && Drained(schema, s, polls).status == Polling
    ensures Drained(schema, s, polls).logs[p] == s.logs[p] + Arrivals(polls, p)
    decreases |polls|
  {
    if polls == [] {
      assert s.logs[p] + [] == s.logs[p];
    } else {
      var t := Step(schema, s, polls[0]);
      LogsGrow(schema, t, polls[1..], p);
      var first := if polls[0].Grow? && polls[0].partition == p then [polls[0].data] else [];
      assert t.logs[p] == s.logs[p] + first;
      assert s.logs[p] + first + Arrivals(polls[1..], p) == s.logs[p] + (first + Arrivals(polls[1..], p));
    }
  }

  // ---- a topic that stays as it is ----

  predicate Quiet(polls: seq<Poll>) {
    forall i :: 0 <= i < |polls| ==> !polls[i].Grow?
  }

  lemma {:induction false} QuietLogs(schema: Schema, s: State, polls: seq<Poll>)
    requires |s.positions| == |s.logs| && Quiet(polls)
    ensures Drained(schema, s, polls).logs == s.logs
    decreases |polls|
  {
    if s.status == Polling && polls != [] {
      QuietLogs(schema, Step(schema, s, polls[0]), polls[1..]);
    }
  }

  // On a quiet topic a drain that returns has read each assigned partition to its end, exactly.
  lemma {:induction false} QuietDrain(schema: Schema, s0: State, polls: seq<Poll>, p: nat)
    requires Fresh(s0) && Quiet(polls)
    requires Drained(schema, s0, polls).status == Finished && p in Drained(schema, s0, polls).assignment
    ensures p < |s0.logs|
    ensures var items := From(Drained(schema, s0, polls).results, p);
            && Reads(schema, s0.logs[p], p, s0.positions[p], items)
            && |items| == |s0.logs[p]| - s0.positions[p]
  {
    DrainsExactly(schema, s0, polls);
    QuietLogs(schema, s0, polls);
  }

  // ---- every partition the group was given ----

  lemma {:induction false} AssignmentStays(schema: Schema, s: State, polls: seq<Poll>)
    requires |s.positions| == |s.logs| && s.assignment != {}
    ensures Drained(schema, s, polls).assignment == s.assignment
    decreases |polls|
  {
    if s.status == Polling && polls != [] {
      AssignmentStays(schema, Step(schema, s, polls[0]), polls[1..]);
    }
  }

  // The first assignment of a schedule that names a partition there is.
  function FirstAssigned(polls: seq<Poll>, partitions: nat): Option<set<nat>>
    decreases |polls|
  {
    if polls == [] then None
    else if polls[0].Assign? && exists p :: p in polls[0].partitions && p < partitions then Some(polls[0].partitions)
    else FirstAssigned(polls[1..], partitions)
  }

  predicate Given(polls: seq<Poll>, partitions: nat, p: nat) {
    var first := FirstAssigned(polls, partitions);
    p < partitions && first.Some? && p in first.value
  }

  lemma {:induction false} NothingWithoutAssignment(schema: Schema, s: State, e: Poll, p: nat)
    requires |s.positions| == |s.logs| && s.assignment == {}
    ensures var t := Step(schema, s, e);
            && |t.logs| == |s.logs| == |t.positions| && t.status == s.status
            && (e.Assign? && p < |s.logs| ==> (p in t.assignment <==> p in e.partitions))
            && (!e.Assign? ==> t.assignment == {})
            && (t.assignment == {} <==> !(e.Assign? && exists q :: q in e.partitions && q < |s.logs|))
  {
    if e.Assign? {
      assert forall q :: q in Step(schema, s, e).assignment <==> q in e.partitions && q < |s.logs|;
    }
  }

  // The drain works on the partitions of that assignment, every one of them and no other.
  lemma {:induction false} DrainsWhatIsGiven(schema: Schema, s: State, polls: seq<Poll>, p: nat)
    requires |s.positions| == |s.logs| && p < |s.logs| && s.assignment == {} && s.status == Polling
    ensures p in Drained(schema, s, polls).assignment <==> Given(polls, |s.logs|, p)
    decreases |polls|
  {
    if polls != [] {
      var t := Step(schema, s, polls[0]);
      NothingWithoutAssignment(schema, s, polls[0], p);
      if t.assignment != {} {
        AssignmentStays(schema, t, polls[1..]);
      } else {
        DrainsWhatIsGiven(schema, t, polls[1..], p);
      }
    }
  }

  // Of every partition the group was given, a drain that returns holds all there was at its start.
  lemma {:induction false} DrainsEveryPartition(schema: Schema, s0: State, polls: seq<Poll>, p: nat)
    requires Fresh(s0) && Given(polls, |s0.logs|, p)
    ensures var s := Drained(schema, s0, polls);
            var items := From(s.results, p);
            && s0.logs[p] <= s.logs[p] && Reads(schema, s.logs[p], p, s0.positions[p], items)
            && (s.status == Finished ==> s0.positions[p] + |items| >= |s0.logs[p]|)
  {
    DrainsWhatIsGiven(schema, s0, polls, p);
    DrainsExactly(schema, s0, polls);
  }

  // On a quiet topic it holds exactly all there is.
  lemma {:induction false} QuietDrainComplete(schema: Schema, s0: State, polls: seq<Poll>, p: nat)
    requires Fresh(s0) && Quiet(polls) && Given(polls, |s0.logs|, p)
    requires Drained(schema, s0, polls).status == Finished
    ensures var items := From(Drained(schema, s0, polls).results, p);
            && Reads(schema, s0.logs[p], p, s0.positions[p], items)
            && |items| == |s0.logs[p]| - s0.positions[p]
  {
    DrainsWhatIsGiven(schema, s0, polls, p);
    QuietDrain(schema, s0, polls, p);
  }

  // ---- it ends ----

  // A poll that gets something done: a message, or the end of a partition that had not reported it.
  predicate Effective(s: State, e: Poll)
    requires |s.positions| == |s.logs|
  {
    match e
    case Next(p) => Offered(s, p)
    case EndOf(p) => AtEnd(s, p) && p !in s.ended
    case _ => false
  }

  // What is left in the first n partitions: their unread messages and unreported ends.
  function Left(s: State, n: nat): nat
    requires |s.positions| == |s.logs| && n <= |s.logs|
  {
    if n == 0 then 0
    else
      var p := n - 1;
      Left(s, p) + if p !in s.assignment then 0 else
        (if Offered(s, p) then |s.logs[p]| - s.positions[p] else 0) + if p in s.ended then 0 else 1
  }

  function Remaining(s: State): nat
    requires |s.positions| == |s.logs|
  {
    Left(s, |s.logs|)
  }

  function EffectivePolls(schema: Schema, s: State, polls: seq<Poll>): nat
    requires |s.positions| == |s.logs|
    decreases |polls|
  {
    if s.status != Polling || polls == [] then 0
    else (if Effective(s, polls[0]) then 1 else 0) + EffectivePolls(schema, Step(schema, s, polls[0]), polls[1..])
  }

  ghost predicate Decodable(schema: Schema, logs: seq<seq<Bytes>>) {
    forall p, i :: 0 <= p < |logs| && 0 <= i < |logs[p]| ==> Deserialize(schema, logs[p][i]).Some?
  }

  lemma {:induction false} LeftAfter(schema: Schema, s: State, e: Poll, n: nat)
    requires |s.positions| == |s.logs| && n <= |s.logs|
    requires s.assignment != {} && !e.Grow? && Step(schema, s, e).status != Failed
    ensures Left(Step(schema, s, e), n)
            == Left(s, n) - if Effective(s, e) && e.partition < n then 1 else 0
    decreases n
  {
    if n > 0 {
      LeftAfter(schema, s, e, n - 1);
    }
  }

  // With nothing new arriving and every message readable, each effective poll uses up one of a
  // fixed number: no schedule contains more of them before the drain returns.
  lemma {:induction false} EffectiveBounded(schema: Schema, s: State, polls: seq<Poll>)
    requires |s.positions| == |s.logs| && s.assignment != {} && Quiet(polls) && Decodable(schema, s.logs)
    requires s.status != Failed
    ensures Drained(schema, s, polls).status != Failed
    ensures EffectivePolls(schema, s, polls) + Remaining(Drained(schema, s, polls)) == Remaining(s)
    decreases |polls|
  {
    if s.status == Polling && polls != [] {
      var t := Step(schema, s, polls[0]);
      assert t.status != Failed;
      LeftAfter(schema, s, polls[0], |s.logs|);
      EffectiveBounded(schema, t, polls[1..]);
    }
  }

  // Until it returns, the client library always has an effective answer to give.
  lemma {:induction false} NeverStuck(schema: Schema, s0: State, s: State)
    requires Kept(schema, s0, s) && s.status == Polling && s.assignment != {}
    ensures exists e :: Effective(s, e)
  {
    var p :| p in s.assignment && p !in s.ended;
    assert p < |s.logs|;
    assert Effective(s, Next(p)) || Effective(s, EndOf(p));
  }

  lemma {:induction false} NothingLeft(s: State, n: nat, p: nat)
    requires |s.positions| == |s.logs| && p < n <= |s.logs| && p in s.assignment && Left(s, n) == 0
    ensures p in s.ended
    decreases n
  {
    if p < n - 1 {
      NothingLeft(s, n - 1, p);
    }
  }

  // A quiet drain returns as soon as that number of effective polls has been answered.
  lemma {:induction false} Returns(schema: Schema, s0: State, s: State, polls: seq<Poll>)
    requires Kept(schema, s0, s) && s.status != Failed && s.assignment != {}
    requires Quiet(polls) && Decodable(schema, s.logs)
    requires EffectivePolls(schema, s, polls) >= Remaining(s)
    ensures Drained(schema, s, polls).status == Finished
  {
    EffectiveBounded(schema, s, polls);
    DrainedKept(schema, s0, s, polls);
    AssignmentStays(schema, s, polls);
    var t := Drained(schema, s, polls);
    forall p | p in t.assignment
      ensures p in t.ended
    {
      NothingLeft(t, |t.logs|, p);
    }
  }

  // ---- the loop ----

  // The client library's side: the partitions and how far each has been handed over.
  class Consumer {
    var logs: seq<seq<Bytes>>
    var positions: seq<nat>
    var assignment: set<nat>

    constructor (logs: seq<seq<Bytes>>, positions: seq<nat>)
      ensures this.logs == logs && this.positions == positions && this.assignment == {}
    {
      this.logs, this.positions, this.assignment := logs, positions, {};
    }

    ghost function View(ended: set<nat>, results: seq<Item>, status: Status): State
      reads this
    {
      State(logs, positions, assignment, ended, results, status)
    }
  }

  method DrainAll(c: Consumer, schema: Schema, polls: seq<Poll>) returns (results: seq<Item>, status: Status)
    requires |c.positions| == |c.logs| && c.assignment == {}
    modifies c
    ensures var s := Drained(schema, old(c.View({}, [], Polling)), polls);
            c.View(s.ended, results, status) == s
  {
    results, status := [], Polling;
    var ended: set<nat> := {};
    ghost var end := Drained(schema, c.View({}, [], Polling), polls);
    var i := 0;
    while i < |polls| && status == Polling
      invariant 0 <= i <= |polls| && |c.positions| == |c.logs|
      invariant Drained(schema, c.View(ended, results, status), polls[i..]) == end
      decreases |polls| - i
    {
      var poll := polls[i];
      assert polls[i..][0] == poll && polls[i..][1..] == polls[i + 1..];
      i := i + 1;
      ghost var before := c.View(ended, results, status);
      match poll {
        case Nothing =>
        case Assign(partitions) =>
          if c.assignment == {} {
            c.assignment := set p | p in partitions && p < |c.logs|;
          }
        case Grow(p, data) =>
          if p < |c.logs| {
            c.logs := c.logs[p := c.logs[p] + [data]];
          }
        case EndOf(p) =>
          if p in c.assignment && p < |c.logs| && c.positions[p] >= |c.logs[p]| {
            ended := ended + {p};
            if c.assignment != {} && c.assignment <= ended {
              status := Finished;
            }
          }
        case Next(p) =>
          if p in c.assignment && p < |c.logs| && c.positions[p] < |c.logs[p]| {
            var at := c.positions[p];
            match Deserialize(schema, c.logs[p][at]) {
              case None => status := Failed;
              case Some(content) =>
                c.positions := c.positions[p := at + 1];
                results := results + [Item(p, at, content)];
            }
          }
      }
      assert c.View(ended, results, status) == Step(schema, before, poll);
    }
  }
}
