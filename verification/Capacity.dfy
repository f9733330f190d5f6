/**
  How much disk a topic takes under retention.bytes: the exact maximum right after the cleaner ran,
  and when "partitions times retention.bytes" is a bound.
  */
module Capacity {
  import opened Basics
  import opened SegmentedLog
  import opened Retention
  import opened Rolling

  // A partition's bytes at the end of a run, once the cleaner has run.
  function CleanedBytes(limits: Limits, events: seq<Event>): nat {
    TotalBytes(Reach(limits, events + [Clean]))
  }

  // The most that can be: the active segment comes on top of the cap, unless it is always empty.
  // Segments that age out at once leave only the active one, if none that fills up fits the cap.
  function Peak(limits: Limits, cap: nat): nat {
    if limits.segmentBytes <= 1 || limits.segmentMs == 0 then cap
    else if limits.retentionMs == 0 && cap < limits.segmentBytes then limits.segmentBytes - 1
    else cap + limits.segmentBytes - 1
  }

  lemma {:induction false} ReachSnoc(limits: Limits, events: seq<Event>, e: Event)
    ensures Reach(limits, events + [e]) == Step(limits, Reach(limits, events), e)
  {
    assert (events + [e])[..|events|] == events;
  }

  // ---- no run exceeds it ----

  // A segment was closed because it was full, or some time after its last record.
  predicate ClosedFor(limits: Limits, clock: nat, s: Segment) {
    && s.records != []
    && (BytesOf(s.records) >= limits.segmentBytes || s.records[|s.records| - 1].time < clock)
  }

  ghost predicate Regular(limits: Limits, l: Log) {
    && !MustRoll(limits, l)
    && (forall i :: 0 <= i < |l.active.records| ==> l.active.records[i].time <= l.clock)
    && (forall s :: s in l.closed ==> ClosedFor(limits, l.clock, s))
  }

  lemma {:induction false} RollRegular(limits: Limits, l: Log)
    requires limits.segmentBytes > 0 && limits.segmentMs > 0
    requires forall i :: 0 <= i < |l.active.records| ==> l.active.records[i].time <= l.clock
    requires forall s :: s in l.closed ==> ClosedFor(limits, l.clock, s)
    requires MustRoll(limits, l) ==> ClosedFor(limits, l.clock, l.active)
    ensures Regular(limits, Roll(limits, l))
  {
  }

  lemma {:induction false} StepRegular(limits: Limits, l: Log, e: Event)
    requires limits.segmentBytes > 0 && limits.segmentMs > 0 && Regular(limits, l)
    ensures Regular(limits, Step(limits, l, e))
  {
    match e
    case Append(payload, bytes) => RollRegular(limits, Put(l, payload, bytes));
    case Wait(ms) => RollRegular(limits, l.(clock := l.clock + ms));
    case Clean =>
      forall s | s in Cleaned(limits, l.clock, l.closed)
        ensures s in l.closed
      {
        CleanedSubset(limits, l.clock, l.closed, s);
      }
  }

  lemma {:induction false} AlwaysRegular(limits: Limits, events: seq<Event>)
    requires limits.segmentBytes > 0 && limits.segmentMs > 0
    ensures Regular(limits, Reach(limits, events))
    decreases |events|
  {
    if events != [] {
      AlwaysRegular(limits, events[..|events| - 1]);
      StepRegular(limits, Reach(limits, events[..|events| - 1]), events[|events| - 1]);
    }
  }

  lemma {:induction false} ActiveAlwaysEmpty(limits: Limits, events: seq<Event>)
    requires limits.segmentBytes == 0 || limits.segmentMs == 0
    ensures Reach(limits, events).active.records == []
    decreases |events|
  {
    if events != [] {
      ActiveAlwaysEmpty(limits, events[..|events| - 1]);
    }
  }

  // With such limits the oldest closed segment always has to go.
  lemma {:induction false} OldestGoes(limits: Limits, cap: nat, clock: nat, closed: seq<Segment>)
    requires limits.retentionMs == 0 && limits.retentionBytes == Some(cap) && cap < limits.segmentBytes
    ensures closed != [] ==> closed[0] in closed
    ensures closed != [] && ClosedFor(limits, clock, closed[0]) ==> Deletes(limits, clock, closed)
  {
  }

  lemma {:induction false} NothingClosedIsKept(limits: Limits, cap: nat, events: seq<Event>)
    requires limits.segmentMs > 0 && limits.retentionMs == 0
    requires limits.retentionBytes == Some(cap) && cap < limits.segmentBytes
    ensures Reach(limits, events + [Clean]).closed == []
  {
    CleanLeavesWithinLimits(limits, events);
    AlwaysRegular(limits, events + [Clean]);
    var l := Reach(limits, events + [Clean]);
    OldestGoes(limits, cap, l.clock, l.closed);
  }

  lemma {:induction false} PartitionCapacity(limits: Limits, cap: nat, events: seq<Event>)
    requires limits.retentionBytes == Some(cap)
    ensures CleanedBytes(limits, events) <= Peak(limits, cap)
  {
    CleanLeavesWithinLimits(limits, events);
    if limits.segmentBytes == 0 || limits.segmentMs == 0 {
      ActiveAlwaysEmpty(limits, events + [Clean]);
    } else {
      ActiveBelowSegmentBytes(limits, events + [Clean]);
      if limits.retentionMs == 0 && cap < limits.segmentBytes {
        NothingClosedIsKept(limits, cap, events);
      }
    }
  }

  // ---- and some run reaches it ----

  lemma {:induction false} OneRecord(r: Record)
    ensures BytesOf([r]) == r.bytes
  {
    assert [r][..0] == [];
  }

  // One record of cap bytes stays, in whichever segment.
  lemma {:induction false} CapReached(limits: Limits, cap: nat)
    requires limits.retentionBytes == Some(cap)
    ensures CleanedBytes(limits, [Append(0, cap)]) == cap
  {
    var r := Record(0, cap, 0);
    OneRecord(r);
    ReachSnoc(limits, [], Append(0, cap));
    ReachSnoc(limits, [Append(0, cap)], Clean);
    assert [] + [Append(0, cap)] == [Append(0, cap)];
    var put := Put(EMPTY, 0, cap);
    assert put.active.records == [r];
    if MustRoll(limits, put) {
      var closed := [Segment(0, [r])];
      assert put.closed + [put.active] == closed;
      assert closed[1..] == [];
      assert ClosedBytes(closed) == cap;
      assert !Deletes(limits, 0, closed);
    }
  }

  // A log whose closed part is within both limits takes one more record below the roll size.
  lemma {:induction false} TopUp(limits: Limits, cap: nat, events: seq<Event>, closed: Segment)
    requires limits.segmentBytes > 0 && limits.segmentMs > 0 && limits.retentionBytes == Some(cap)
    requires var l := Reach(limits, events);
             && l.closed == [closed] && l.active.records == []
             && BytesOf(closed.records) == cap && !Expired(limits, l.clock, closed)
    ensures CleanedBytes(limits, events + [Append(0, limits.segmentBytes - 1)]) == cap + limits.segmentBytes - 1
  {
    var l := Reach(limits, events);
    var more := Append(0, limits.segmentBytes - 1);
    OneRecord(Record(0, limits.segmentBytes - 1, l.clock));
    ReachSnoc(limits, events, more);
    ReachSnoc(limits, events + [more], Clean);
    var put := Put(l, 0, limits.segmentBytes - 1);
    assert put.active.records == [Record(0, limits.segmentBytes - 1, l.clock)];
    assert !MustRoll(limits, put);
    assert ClosedBytes([closed]) == cap by { assert [closed][1..] == []; }
    assert !Deletes(limits, l.clock, [closed]);
  }

  // With a cap of at least a segment: one full segment, topped up.
  lemma {:induction false} FilledBySize(limits: Limits, cap: nat)
    requires limits.segmentBytes > 0 && limits.segmentMs > 0 && limits.retentionBytes == Some(cap)
    requires cap >= limits.segmentBytes
    ensures CleanedBytes(limits, [Append(0, cap)] + [Append(0, limits.segmentBytes - 1)]) == cap + limits.segmentBytes - 1
  {
    var r := Record(0, cap, 0);
    OneRecord(r);
    ReachSnoc(limits, [], Append(0, cap));
    assert [] + [Append(0, cap)] == [Append(0, cap)];
    assert Put(EMPTY, 0, cap).active.records == [r];
    TopUp(limits, cap, [Append(0, cap)], Segment(0, [r]));
  }

  // With a smaller cap: a segment of cap bytes that rolls by age while its last record is recent.
  lemma {:induction false} FilledByAge(limits: Limits, cap: nat) returns (events: seq<Event>)
    requires limits.segmentBytes > 0 && limits.segmentMs > 0 && limits.retentionBytes == Some(cap)
    requires cap < limits.segmentBytes && limits.retentionMs > 0
    ensures CleanedBytes(limits, events) == cap + limits.segmentBytes - 1
  {
    var ms := limits.segmentMs - 1;
    var first, last := Record(0, 0, 0), Record(0, cap, ms);
    var e1 := [Append(0, 0)];
    var e2, e3 := e1 + [Wait(ms)], e1 + [Wait(ms)] + [Append(0, cap)];
    var e4 := e3 + [Wait(1)];
    OneRecord(first);
    BytesGrow([first], last);
    ReachSnoc(limits, [], Append(0, 0));
    assert [] + e1 == e1;
    assert Put(EMPTY, 0, 0).active.records == [first];
    assert Reach(limits, e1) == Log([], Segment(0, [first]), 0);
    ReachSnoc(limits, e1, Wait(ms));
    assert Reach(limits, e2) == Log([], Segment(0, [first]), ms);
    ReachSnoc(limits, e2, Append(0, cap));
    assert Reach(limits, e3) == Log([], Segment(0, [first] + [last]), ms);
    ReachSnoc(limits, e3, Wait(1));
    assert Reach(limits, e4) == Log([Segment(0, [first] + [last])], Segment(2, []), ms + 1);
    TopUp(limits, cap, e4, Segment(0, [first] + [last]));
    events := e4 + [Append(0, limits.segmentBytes - 1)];
  }

  lemma {:induction false} ActiveAlone(limits: Limits, cap: nat)
    requires limits.segmentBytes > 0 && limits.segmentMs > 0 && limits.retentionBytes == Some(cap)
    ensures CleanedBytes(limits, [Append(0, limits.segmentBytes - 1)]) == limits.segmentBytes - 1
  {
    var e := Append(0, limits.segmentBytes - 1);
    var r := Record(0, limits.segmentBytes - 1, 0);
    OneRecord(r);
    ReachSnoc(limits, [], e);
    ReachSnoc(limits, [e], Clean);
    assert [] + [e] == [e];
    assert Put(EMPTY, 0, limits.segmentBytes - 1).active.records == [r];
  }

  // The bound is exact, for all limits with a cap: no run exceeds the peak and one attains it.
  lemma {:induction false} PeakReached(limits: Limits, cap: nat) returns (events: seq<Event>)
    requires limits.retentionBytes == Some(cap)
    ensures CleanedBytes(limits, events) == Peak(limits, cap)
  {
    if limits.segmentBytes <= 1 || limits.segmentMs == 0 {
      CapReached(limits, cap);
      events := [Append(0, cap)];
    } else if cap >= limits.segmentBytes {
      FilledBySize(limits, cap);
      events := [Append(0, cap)] + [Append(0, limits.segmentBytes - 1)];
    } else if limits.retentionMs == 0 {
      ActiveAlone(limits, cap);
      events := [Append(0, limits.segmentBytes - 1)];
    } else {
      events := FilledByAge(limits, cap);
    }
  }

  // ---- whole topics ----

  function Sum(limits: Limits, runs: seq<seq<Event>>): nat {
    if runs == [] then 0 else Sum(limits, runs[..|runs| - 1]) + CleanedBytes(limits, runs[|runs| - 1])
  }

  // Partitions are limited independently, so the bound multiplies.
  lemma {:induction false} TopicCapacity(limits: Limits, cap: nat, runs: seq<seq<Event>>)
    requires limits.retentionBytes == Some(cap)
    ensures Sum(limits, runs) <= |runs| * Peak(limits, cap)
    decreases |runs|
  {
    if runs != [] {
      var n := |runs| - 1;
      TopicCapacity(limits, cap, runs[..n]);
      PartitionCapacity(limits, cap, runs[n]);
      Distribute(n, Peak(limits, cap));
    }
  }

  lemma {:induction false} SameRunEverywhere(limits: Limits, runs: seq<seq<Event>>, events: seq<Event>)
    requires forall p :: 0 <= p < |runs| ==> runs[p] == events
    ensures Sum(limits, runs) == |runs| * CleanedBytes(limits, events)
    decreases |runs|
  {
    if runs != [] {
      var n := |runs| - 1;
      SameRunEverywhere(limits, runs[..n], events);
      Distribute(n, CleanedBytes(limits, events));
    }
  }

  ghost predicate WithinCaps(limits: Limits, cap: nat, runs: seq<seq<Event>>) {
    Sum(limits, runs) <= |runs| * cap
  }

  // When the cap alone bounds a partition: the active segment is always empty, or everything closed
  // is gone after a cleaner pass and the cap is just what the active segment can hold.
  predicate CapSuffices(limits: Limits, cap: nat) {
    || limits.segmentBytes <= 1
    || limits.segmentMs == 0
    || (limits.retentionMs == 0 && cap == limits.segmentBytes - 1)
  }

  lemma {:induction false} CapsBound(limits: Limits, cap: nat, runs: seq<seq<Event>>)
    requires limits.retentionBytes == Some(cap) && CapSuffices(limits, cap)
    ensures WithinCaps(limits, cap, runs)
  {
    TopicCapacity(limits, cap, runs);
  }

  lemma {:induction false} CapsExceeded(limits: Limits, cap: nat, partitions: nat) returns (runs: seq<seq<Event>>)
    requires limits.retentionBytes == Some(cap) && !CapSuffices(limits, cap) && partitions > 0
    ensures |runs| == partitions && !WithinCaps(limits, cap, runs)
  {
    var events := PeakReached(limits, cap);
    runs := seq(partitions, _ => events);
    SameRunEverywhere(limits, runs, events);
    Monotone(cap + 1, Peak(limits, cap), partitions);
    Distribute(cap, partitions);
  }

  // "A topic with P partitions can hold up to P x N bytes total" holds exactly then, for any P.
  lemma {:induction false} CapsBoundTopicExactly(limits: Limits, cap: nat, partitions: nat)
    requires limits.retentionBytes == Some(cap) && partitions > 0
    ensures (forall runs: seq<seq<Event>> :: |runs| == partitions ==> WithinCaps(limits, cap, runs))
            <==> CapSuffices(limits, cap)
  {
    if CapSuffices(limits, cap) {
      forall runs: seq<seq<Event>> | |runs| == partitions
        ensures WithinCaps(limits, cap, runs)
      {
        CapsBound(limits, cap, runs);
      }
    } else {
      var runs := CapsExceeded(limits, cap, partitions);
    }
  }

  // ---- the simulation's own numbers ----

  lemma {:induction false} ClosedBytesSnoc(closed: seq<Segment>, s: Segment)
    ensures ClosedBytes(closed + [s]) == ClosedBytes(closed) + BytesOf(s.records)
    decreases |closed|
  {
    if closed == [] {
      assert ([s])[1..] == [] && closed + [s] == [s];
    } else {
      assert (closed + [s])[1..] == closed[1..] + [s];
      ClosedBytesSnoc(closed[1..], s);
    }
  }

  // Appends alone delete nothing.
  lemma {:induction false} AppendedBytes(limits: Limits, events: seq<Event>, size: nat)
    requires forall i :: 0 <= i < |events| ==> events[i].Append? && events[i].bytes == size
    ensures TotalBytes(Reach(limits, events)) == |events| * size
    ensures Reach(limits, events).clock == 0
    ensures forall s :: s in Reach(limits, events).closed ==> s.records != [] && s.records[|s.records| - 1].time == 0
    decreases |events|
  {
    if events != [] {
      var n := |events| - 1;
      var before := events[..n];
      AppendedBytes(limits, before, size);
      var l := Reach(limits, before);
      var put := Put(l, events[n].payload, size);
      BytesGrow(l.active.records, Record(events[n].payload, size, l.clock));
      ClosedBytesSnoc(l.closed, put.active);
      Distribute(n, size);
    }
  }

  // 512-byte segments, a 5 KB cap, 24 hours of retention and 180-byte messages: a partition that
  // received 29 of them takes 5220 bytes after the cleaner ran, more than the 5120 it is said to hold.
  lemma {:induction false} SimulationExceedsCap(limits: Limits, events: seq<Event>)
    requires limits == Limits(512, 604_800_000, 86_400_000, Some(5120))
    requires |events| == 29 && forall i :: 0 <= i < |events| ==> events[i] == Append(i, 180)
    ensures CleanedBytes(limits, events) == 5220
  {
    AppendsWritten(events);
    YoungRunsRollBySize(limits, events);
    UniformRolls(limits, events, 180, 3);
    AppendedBytes(limits, events, 180);
    ReachSnoc(limits, events, Clean);
    var l := Reach(limits, events);
    assert |l.closed| == 9 && |l.active.records| == 2;
    assert BytesOf(l.active.records) == 360;
    assert l.closed[0] in l.closed;
    assert !Deletes(limits, 0, l.closed);
  }
}
