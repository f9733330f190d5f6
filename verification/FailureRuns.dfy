/**
  Concrete runs behind the warnings in the source: each weaker setting really loses, doubles or
  reorders messages, and the numbers the simulations print can hide it.
  */
module FailureRuns {
  import opened Basics
  import opened Replication
  import opened Traces
  import opened Accounting

  const M0 := Entry(0, 0)
  const M1 := Entry(0, 1)

  // acks=1, one message acknowledged before replication, leader killed, one more produced: the
  // gap is zero and the simulation would print "no data loss", yet the confirmed message is gone.
  lemma {:induction false} ZeroGapHidesLoss(c: Config, first: seq<Event>, second: seq<Event>)
    requires c == Config(2, 1, LeaderOnly, CaughtUp, false, false)
    requires first == [Send(0), Deliver(0, 0), Acknowledge(0), Callback(Ack(M0, 0))]
    requires second == [Crash(0), Elect(1), Send(0), Deliver(0, 1)]
    ensures var s := Reach(c, first + second);
            Led(s) && |s.confirmed| == |LeaderLog(s)| && Lost(s) == {M0}
  {
    var s4 := ConfirmedByLeaderOnly(c, first);
    var s5 := s4.(alive := {1}, leader := None);
    var s6 := s5.(leader := Some(1), isr := {1}, next := map[]);
    var s7 := s6.(sent := map[0 := 2]);
    var s8 := s7.(logs := [[M0], [M1]], next := map[0 := 2]);
    assert s4.alive - {0} == {1};
    assert Step(c, s4, second[0]) == s5;
    assert s5.isr * s5.alive == {1};
    assert Step(c, s5, second[1]) == s6;
    assert Step(c, s6, second[2]) == s7;
    assert LeaderLog(s7) + [M1] == [M1];
    assert Step(c, s7, second[3]) == s8;
    Trace(c, [s4, s5, s6, s7, s8], second);
    assert Stored([M1]) == {M1} && {M0} - {M1} == {M0};
    RunAppend(c, Init(c), first, second);
  }

  lemma {:induction false} ConfirmedByLeaderOnly(c: Config, events: seq<Event>) returns (s4: State)
    requires c == Config(2, 1, LeaderOnly, CaughtUp, false, false)
    requires events == [Send(0), Deliver(0, 0), Acknowledge(0), Callback(Ack(M0, 0))]
    ensures s4 == Reach(c, events)
    ensures s4 == State([[M0], []], {0, 1}, {0, 1}, Some(0), map[0 := 1], map[0 := 1],
                        {Ack(M0, 0)}, {M0}, {}, [M0])
  {
    var s0 := Init(c);
    assert s0.logs == [[], []] && s0.isr == s0.alive == {0, 1};
    var s1 := s0.(sent := map[0 := 1]);
    var s2 := s1.(logs := [[M0], []], next := map[0 := 1]);
    var s3 := s2.(acks := {Ack(M0, 0)}, committed := [M0]);
    s4 := s3.(confirmed := {M0});
    assert Step(c, s0, events[0]) == s1;
    assert LeaderLog(s1) + [M0] == [M0];
    assert Step(c, s1, events[1]) == s2;
    assert Step(c, s2, events[2]) == s3;
    assert Step(c, s3, events[3]) == s4;
    Trace(c, [s0, s1, s2, s3, s4], events);
  }

  // acks=all, but a follower rejoins the ISR for having fetched recently: elected before it
  // caught up, it loses an acknowledged message.
  lemma {:induction false} RecentFetchLoses(c: Config, first: seq<Event>, second: seq<Event>)
    requires c == Config(2, 1, AllInSync, RecentFetch, false, false)
    requires first == [Shrink(1), Send(0), Deliver(0, 0), Acknowledge(0)]
    requires second == [Fetch(1, 0), Expand(1), Crash(0), Elect(1)]
    ensures var s := Reach(c, first + second);
            Led(s) && Ack(M0, 0) in s.acks && LeaderLog(s) == []
  {
    var s4 := AcknowledgedAlone(c, first);
    var s6 := s4.(isr := {0, 1});
    var s7 := s6.(alive := {1}, leader := None);
    var s8 := s7.(leader := Some(1), isr := {1}, next := map[]);
    assert Step(c, s4, second[0]) == s4;
    assert Step(c, s4, second[1]) == s6;
    assert Step(c, s6, second[2]) == s7;
    assert s7.isr * s7.alive == {1};
    assert Step(c, s7, second[3]) == s8;
    Trace(c, [s4, s4, s6, s7, s8], second);
    RunAppend(c, Init(c), first, second);
  }

  lemma {:induction false} AcknowledgedAlone(c: Config, events: seq<Event>) returns (s4: State)
    requires c == Config(2, 1, AllInSync, RecentFetch, false, false)
    requires events == [Shrink(1), Send(0), Deliver(0, 0), Acknowledge(0)]
    ensures s4 == Reach(c, events)
    ensures s4 == State([[M0], []], {0, 1}, {0}, Some(0), map[0 := 1], map[0 := 1],
                        {Ack(M0, 0)}, {}, {}, [M0])
  {
    var s0 := Init(c);
    assert s0.logs == [[], []] && s0.isr == s0.alive == {0, 1};
    var s1 := s0.(isr := {0});
    var s2 := s1.(sent := map[0 := 1]);
    var s3 := s2.(logs := [[M0], []], next := map[0 := 1]);
    s4 := s3.(acks := {Ack(M0, 0)}, committed := [M0]);
    assert Step(c, s0, events[0]) == s1;
    assert Step(c, s1, events[1]) == s2;
    assert LeaderLog(s2) + [M0] == [M0];
    assert Step(c, s2, events[2]) == s3;
    assert Step(c, s3, events[3]) == s4;
    Trace(c, [s0, s1, s2, s3, s4], events);
  }

  // acks=all and idempotence: a message written and not yet acknowledged is on disk, so "confirmed =
  // on disk" fails although nothing is lost.
  lemma {:induction false} UnconfirmedOnDisk(c: Config)
    requires c == Config(1, 1, AllInSync, CaughtUp, false, true)
    ensures var s := Reach(c, [Send(0), Deliver(0, 0)]);
            Led(s) && |LeaderLog(s)| == 1 && s.confirmed == {}
  {
    var s0 := Init(c);
    assert s0.logs == [[]];
    var s1 := s0.(sent := map[0 := 1]);
    var s2 := s1.(logs := [[M0]], next := map[0 := 1]);
    assert Step(c, s0, Send(0)) == s1;
    assert LeaderLog(s1) + [M0] == [M0];
    assert Step(c, s1, Deliver(0, 0)) == s2;
    Trace(c, [s0, s1, s2], [Send(0), Deliver(0, 0)]);
  }

  // Without idempotence, two requests of which one or both are retried: every delivery is written.
  lemma {:induction false} TwoWrites(c: Config, a: nat, b: nat) returns (s: State)
    requires c == Config(1, 1, AllInSync, CaughtUp, false, false) && a < 2 && b < 2
    ensures s == Reach(c, [Send(0), Send(0), Deliver(0, a), Deliver(0, b)])
    ensures s.leader == Some(0) && s.sent == map[0 := 2]
    ensures s.logs == [[Entry(0, a), Entry(0, b)]]
  {
    var s0 := Init(c);
    assert s0.logs == [[]];
    var s1 := s0.(sent := map[0 := 1]);
    var s2 := s1.(sent := map[0 := 2]);
    var s3 := s2.(logs := [[Entry(0, a)]], next := map[0 := a + 1]);
    s := s3.(logs := [[Entry(0, a), Entry(0, b)]], next := map[0 := b + 1]);
    assert Step(c, s0, Send(0)) == s1;
    assert Step(c, s1, Send(0)) == s2;
    assert LeaderLog(s2) + [Entry(0, a)] == [Entry(0, a)];
    assert Step(c, s2, Deliver(0, a)) == s3;
    assert LeaderLog(s3) + [Entry(0, b)] == [Entry(0, a), Entry(0, b)];
    assert Step(c, s3, Deliver(0, b)) == s;
    Trace(c, [s0, s1, s2, s3, s], [Send(0), Send(0), Deliver(0, a), Deliver(0, b)]);
  }

  // The first message is retried into the log, the second never arrives: two sent, two stored,
  // "Duplicates: 0", and both claims behind it false.
  lemma {:induction false} ZeroDuplicatesHidesBoth(c: Config)
    requires c == Config(1, 1, AllInSync, CaughtUp, false, false)
    ensures var s := Reach(c, [Send(0), Send(0), Deliver(0, 0), Deliver(0, 0)]);
            && Led(s) && |LeaderLog(s)| == Tally(s.sent, 0)
            && Surplus(LeaderLog(s)) == 1 && M1 !in LeaderLog(s)
  {
    var s := TwoWrites(c, 0, 0);
    StoredPlusSurplus([M0, M0]);
    assert Stored([M0, M0]) == {M0};
  }

  // Two requests in flight, the first arriving only on its retry: the log is out of order.
  lemma {:induction false} InFlightReorders(c: Config)
    requires c == Config(1, 1, AllInSync, CaughtUp, false, false)
    ensures var s := Reach(c, [Send(0), Send(0), Deliver(0, 1), Deliver(0, 0)]);
            Led(s) && LeaderLog(s) == [M1, M0]
  {
    var s := TwoWrites(c, 1, 0);
  }
}
