/**
  Order without idempotence. What keeps it is that requests reach the broker in send order, and one
  request in flight is enough for that: the next message is sent only when the one before is done.
  */
module Ordering {
  import opened Basics
  import opened Replication
  import opened Accounting

  // A producer's messages stand in the order it sent them, copies next to each other or not.
  ghost predicate InSendOrder(log: seq<Entry>, pid: nat) {
    forall i, j :: 0 <= i < j < |log| && log[i].pid == pid && log[j].pid == pid ==> log[i].number <= log[j].number
  }

  ghost predicate AllInSendOrder(s: State, pid: nat) {
    forall r :: 0 <= r < |s.logs| ==> InSendOrder(s.logs[r], pid)
  }

  // A delivery that would be stored below a later message of the same producer.
  predicate ArrivesLate(s: State, e: Event, pid: nat) {
    && Led(s) && e.Deliver? && e.pid == pid && e.number < Tally(s.sent, pid)
    && exists i :: 0 <= i < |LeaderLog(s)| && LeaderLog(s)[i].pid == pid && LeaderLog(s)[i].number > e.number
  }

  lemma {:induction false} StepInOrder(c: Config, s: State, e: Event, pid: nat)
    requires AllInSendOrder(s, pid) && !ArrivesLate(s, e, pid)
    ensures AllInSendOrder(Step(c, s, e), pid)
  {
    var t := Step(c, s, e);
    forall r | 0 <= r < |t.logs|
      ensures InSendOrder(t.logs[r], pid)
    {
      assert InSendOrder(s.logs[r], pid);
      if Led(s) {
        assert InSendOrder(LeaderLog(s), pid);
      }
    }
  }

  // ---- deliveries in send order ----

  predicate DeliversFor(e: Event, pid: nat) {
    e.Deliver? && e.pid == pid
  }

  // Nothing is delivered after a later message of the same producer.
  predicate DeliveredInOrder(events: seq<Event>, pid: nat) {
    forall i, j :: 0 <= i < j < |events| && DeliversFor(events[i], pid) && DeliversFor(events[j], pid) ==>
      events[i].number <= events[j].number
  }

  // Nothing is stored that was not delivered.
  ghost predicate AllDelivered(s: State, events: seq<Event>) {
    forall r, i :: 0 <= r < |s.logs| && 0 <= i < |s.logs[r]| ==>
      Deliver(s.logs[r][i].pid, s.logs[r][i].number) in events
  }

  lemma {:induction false} StepDelivered(c: Config, s: State, before: seq<Event>, e: Event)
    requires AllDelivered(s, before)
    ensures AllDelivered(Step(c, s, e), before + [e])
  {
  }

  lemma {:induction false} NoLaterDelivered(s: State, before: seq<Event>, e: Event, pid: nat)
    requires AllDelivered(s, before) && DeliveredInOrder(before + [e], pid)
    ensures !ArrivesLate(s, e, pid)
  {
    if DeliversFor(e, pid) {
      forall d | d in before && DeliversFor(d, pid)
        ensures d.number <= e.number
      {
        var k :| 0 <= k < |before| && before[k] == d;
        assert (before + [e])[k] == d && (before + [e])[|before|] == e;
      }
    }
  }

  // Whatever else happens, arrival in send order keeps every log in order.
  lemma {:induction false} ArrivalOrderKeepsOrder(c: Config, events: seq<Event>, pid: nat)
    requires DeliveredInOrder(events, pid)
    ensures AllInSendOrder(Reach(c, events), pid) && AllDelivered(Reach(c, events), events)
    decreases |events|
  {
    if events != [] {
      var before, e := events[..|events| - 1], events[|events| - 1];
      assert events == before + [e];
      ArrivalOrderKeepsOrder(c, before, pid);
      NoLaterDelivered(Reach(c, before), before, e, pid);
      StepInOrder(c, Reach(c, before), e, pid);
      StepDelivered(c, Reach(c, before), before, e);
    }
  }

  // ---- one request in flight ----

  // The callback has reported the message, as delivered or as failed.
  predicate Reported(s: State, pid: nat, number: nat) {
    Entry(pid, number) in s.confirmed || Entry(pid, number) in s.failed
  }

  ghost predicate AllReported(s: State, pid: nat, count: nat) {
    forall number: nat :: number < count ==> Reported(s, pid, number)
  }

  // The next message is sent only when every one before has been reported, and the network holds no
  // copy of a request whose message has been reported.
  ghost predicate OneInFlightStep(s: State, e: Event, pid: nat) {
    && (e == Send(pid) ==> AllReported(s, pid, Tally(s.sent, pid)))
    && (e.Deliver? && e.pid == pid ==> !Reported(s, pid, e.number))
  }

  ghost predicate OneInFlight(c: Config, events: seq<Event>, pid: nat) {
    forall n :: 0 <= n < |events| ==> OneInFlightStep(Reach(c, events[..n]), events[n], pid)
  }

  lemma {:induction false} OneInFlightPrefix(c: Config, events: seq<Event>, n: nat, pid: nat)
    requires OneInFlight(c, events, pid) && n < |events|
    ensures OneInFlight(c, events[..n], pid) && OneInFlightStep(Reach(c, events[..n]), events[n], pid)
  {
    forall k | 0 <= k < n
      ensures OneInFlightStep(Reach(c, events[..n][..k]), events[..n][k], pid)
    {
      assert events[..n][..k] == events[..k];
    }
  }

  // All messages but the newest have been reported.
  ghost predicate OnlyNewestOpen(s: State, pid: nat) {
    forall number: nat :: number + 1 < Tally(s.sent, pid) ==> Reported(s, pid, number)
  }

  lemma {:induction false} StepKeepsReports(c: Config, s: State, e: Event, pid: nat, number: nat)
    requires Reported(s, pid, number)
    ensures Reported(Step(c, s, e), pid, number)
  {
  }

  lemma {:induction false} NewestOpenStep(c: Config, s: State, e: Event, pid: nat)
    requires OnlyNewestOpen(s, pid) && OneInFlightStep(s, e, pid)
    ensures OnlyNewestOpen(Step(c, s, e), pid)
  {
    var t := Step(c, s, e);
    forall number: nat | number + 1 < Tally(t.sent, pid)
      ensures Reported(t, pid, number)
    {
      assert Reported(s, pid, number);
      StepKeepsReports(c, s, e, pid, number);
    }
  }

  // So whatever may still arrive is the newest message, and nothing stored is later.
  lemma {:induction false} NothingArrivesLate(s: State, e: Event, pid: nat)
    requires OnlyNewestOpen(s, pid) && Known(s) && OneInFlightStep(s, e, pid)
    ensures !ArrivesLate(s, e, pid)
  {
  }

  lemma {:induction false} OneInFlightReach(c: Config, events: seq<Event>, pid: nat)
    requires OneInFlight(c, events, pid)
    ensures OnlyNewestOpen(Reach(c, events), pid) && AllInSendOrder(Reach(c, events), pid)
    decreases |events|
  {
    if events != [] {
      var n := |events| - 1;
      var s := Reach(c, events[..n]);
      OneInFlightPrefix(c, events, n, pid);
      OneInFlightReach(c, events[..n], pid);
      ReachKnown(c, events[..n]);
      NothingArrivesLate(s, events[n], pid);
      NewestOpenStep(c, s, events[n], pid);
      StepInOrder(c, s, events[n], pid);
    }
  }

  // One request in flight keeps order, with or without idempotence: over any run, however often the
  // request is lost, repeated or written twice and whoever leads, every replica's log has the
  // producer's messages in send order.
  lemma {:induction false} OneInFlightKeepsOrder(c: Config, events: seq<Event>, pid: nat, r: nat)
    requires OneInFlight(c, events, pid) && r < |Reach(c, events).logs|
    ensures InSendOrder(Reach(c, events).logs[r], pid)
  {
    OneInFlightReach(c, events, pid);
  }

  // ---- and without the setting, exactly when ----

  // Without idempotence, from an ordered state a step keeps the leader's log in order if and only if it
  // is not a late arrival.
  lemma {:induction false} LateArrivalsExactly(c: Config, s: State, e: Event, pid: nat)
    requires !c.idempotent && Led(s) && AllInSendOrder(s, pid) && Led(Step(c, s, e))
    ensures InSendOrder(LeaderLog(Step(c, s, e)), pid) <==> !ArrivesLate(s, e, pid)
  {
    if ArrivesLate(s, e, pid) {
      var log := LeaderLog(s);
      var i :| 0 <= i < |log| && log[i].pid == pid && log[i].number > e.number;
      var after := LeaderLog(Step(c, s, e));
      assert after == log + [Entry(pid, e.number)];
      assert after[i] == log[i] && after[|log|] == Entry(pid, e.number);
    } else {
      StepInOrder(c, s, e, pid);
    }
  }
}
