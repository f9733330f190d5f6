/**
  What the simulations' subtractions really count.

  `confirmed - hw` is compared with lost messages, and `hw - COUNT` with duplicates. Both
  differences mix two things; these lemmas take them apart for every run.
  */
module Accounting {
  import opened Basics
  import opened Replication
  import opened Durability
  import opened Idempotence

  function Stored(log: seq<Entry>): set<Entry> {
    set e | e in log
  }

  // Copies beyond the first of each message.
  function Surplus(log: seq<Entry>): nat {
    if log == [] then 0
    else
      var init := log[..|log| - 1];
      Surplus(init) + if log[|log| - 1] in init then 1 else 0
  }

  lemma {:induction false} StoredPlusSurplus(log: seq<Entry>)
    ensures |log| == |Stored(log)| + Surplus(log)
    decreases |log|
  {
    if log != [] {
      var init, last := log[..|log| - 1], log[|log| - 1];
      StoredPlusSurplus(init);
      assert log == init + [last];
      assert Stored(log) == Stored(init) + {last};
    }
  }

  // Confirmed messages missing from the log.
  function Lost(s: State): set<Entry>
    requires Led(s)
  {
    s.confirmed - Stored(LeaderLog(s))
  }

  // Messages in the log that never reached a successful callback.
  function Unconfirmed(s: State): set<Entry>
    requires Led(s)
  {
    Stored(LeaderLog(s)) - s.confirmed
  }

  lemma {:induction false} SplitByIntersection(a: set<Entry>, b: set<Entry>)
    ensures |a| - |b| == |a - b| - |b - a|
  {
    assert a == (a - b) + (a * b);
    assert b == (b - a) + (a * b);
    assert |a| == |a - b| + |a * b|;
    assert |b| == |b - a| + |a * b|;
  }

  lemma {:induction false} GapIdentity(s: State)
    requires Led(s)
    ensures |s.confirmed| - |LeaderLog(s)| == |Lost(s)| - |Unconfirmed(s)| - Surplus(LeaderLog(s))
  {
    StoredPlusSurplus(LeaderLog(s));
    SplitByIntersection(s.confirmed, Stored(LeaderLog(s)));
  }

  // ---- retries=0: a request reaches the broker at most once ----

  predicate DeliveredOnce(events: seq<Event>) {
    forall i, j :: 0 <= i < j < |events| && events[i].Deliver? ==> events[i] != events[j]
  }

  ghost predicate EachOnce(s: State, events: seq<Event>) {
    forall r :: 0 <= r < |s.logs| ==> OnceAndDelivered(s.logs[r], events)
  }

  ghost predicate OnceAndDelivered(log: seq<Entry>, events: seq<Event>) {
    && (forall i, j :: 0 <= i < j < |log| ==> log[i] != log[j])
    && (forall i :: 0 <= i < |log| ==> Deliver(log[i].pid, log[i].number) in events)
  }

  lemma {:induction false} RunOnce(c: Config, events: seq<Event>)
    requires DeliveredOnce(events)
    ensures EachOnce(Reach(c, events), events)
    decreases |events|
  {
    if events != [] {
      var n := |events| - 1;
      RunOnce(c, events[..n]);
      NotBefore(events, n);
      StepOnce(c, Reach(c, events[..n]), events[..n], events[n]);
      assert events == events[..n] + [events[n]];
    }
  }

  lemma {:induction false} NotBefore(events: seq<Event>, n: nat)
    requires DeliveredOnce(events) && n < |events|
    ensures events[n].Deliver? ==> events[n] !in events[..n]
  {
  }

  lemma {:induction false} StepOnce(c: Config, s: State, before: seq<Event>, e: Event)
    requires EachOnce(s, before) && (e.Deliver? ==> e !in before)
    ensures EachOnce(Step(c, s, e), before + [e])
  {
    var t := Step(c, s, e);
    forall r | 0 <= r < |t.logs|
      ensures OnceAndDelivered(t.logs[r], before + [e])
    {
      assert OnceAndDelivered(s.logs[r], before);
      if Led(s) {
        assert OnceAndDelivered(LeaderLog(s), before);
      }
    }
  }

  lemma {:induction false} NoSurplus(log: seq<Entry>)
    requires forall i, j :: 0 <= i < j < |log| ==> log[i] != log[j]
    ensures Surplus(log) == 0
    decreases |log|
  {
    if log != [] {
      NoSurplus(log[..|log| - 1]);
    }
  }

  // The reported gap, exactly: losses minus survivors nobody was told about. So a positive gap
  // proves a loss, while a gap of zero or less proves nothing by itself.
  lemma {:induction false} GapExact(c: Config, events: seq<Event>)
    requires DeliveredOnce(events) && Led(Reach(c, events))
    ensures var s := Reach(c, events);
            var gap := |s.confirmed| - |LeaderLog(s)|;
            gap == |Lost(s)| - |Unconfirmed(s)| && (gap == |Lost(s)| <==> Unconfirmed(s) == {})
  {
    var s := Reach(c, events);
    RunOnce(c, events);
    assert OnceAndDelivered(LeaderLog(s), events);
    NoSurplus(LeaderLog(s));
    GapIdentity(s);
  }

  // Under acks=all the gap is never positive, and what it counts are the unconfirmed survivors
  // and the surplus copies: "confirmed = on disk" holds only as "confirmed is contained in it".
  lemma {:induction false} GapUnderAcksAll(c: Config, events: seq<Event>)
    requires Durable(c) && Led(Reach(c, events))
    ensures var s := Reach(c, events);
            && Lost(s) == {}
            && |LeaderLog(s)| - |s.confirmed| == |Unconfirmed(s)| + Surplus(LeaderLog(s))
            && (|s.confirmed| == |LeaderLog(s)| <==> Unconfirmed(s) == {} && Surplus(LeaderLog(s)) == 0)
  {
    ConfirmedOnDisk(c, events);
    GapIdentity(Reach(c, events));
  }

  // ---- duplicates ----

  ghost predicate Known(s: State) {
    forall r, i :: 0 <= r < |s.logs| && 0 <= i < |s.logs[r]| ==>
      s.logs[r][i].number < Tally(s.sent, s.logs[r][i].pid)
  }

  lemma {:induction false} KnownStep(c: Config, s: State, e: Event)
    requires Known(s)
    ensures Known(Step(c, s, e))
  {
  }

  // Nothing is stored that nobody sent.
  lemma {:induction false} ReachKnown(c: Config, events: seq<Event>)
    ensures Known(Reach(c, events))
    decreases |events|
  {
    if events != [] {
      var n := |events| - 1;
      ReachKnown(c, events[..n]);
      KnownStep(c, Reach(c, events[..n]), events[n]);
    }
  }

  // One producer, as in the simulation: nobody else ever sends.
  predicate OnlyProducer(s: State, pid: nat) {
    s.sent.Keys <= {pid}
  }

  function Sent(pid: nat, count: nat): set<Entry> {
    if count == 0 then {} else Sent(pid, count - 1) + {Entry(pid, count - 1)}
  }

  lemma {:induction false} SentExact(pid: nat, count: nat)
    ensures |Sent(pid, count)| == count
    ensures forall e: Entry :: e in Sent(pid, count) <==> e.pid == pid && e.number < count
  {
    if count > 0 {
      SentExact(pid, count - 1);
    }
  }

  // The reported duplicates, exactly: surplus copies minus messages that were never written.
  // Zero reported duplicates therefore does not mean each message was written once.
  lemma {:induction false} DuplicatesExact(c: Config, events: seq<Event>, pid: nat)
    requires var s := Reach(c, events); Led(s) && OnlyProducer(s, pid)
    ensures var s := Reach(c, events);
            var count := Tally(s.sent, pid);
            && Stored(LeaderLog(s)) <= Sent(pid, count)
            && |LeaderLog(s)| - count
               == Surplus(LeaderLog(s)) - |Sent(pid, count) - Stored(LeaderLog(s))|
            && (|LeaderLog(s)| - count == Surplus(LeaderLog(s)) <==> Sent(pid, count) <= Stored(LeaderLog(s)))
  {
    var s := Reach(c, events);
    var count := Tally(s.sent, pid);
    ReachKnown(c, events);
    SentExact(pid, count);
    forall e | e in Stored(LeaderLog(s))
      ensures e in Sent(pid, count)
    {
      var i :| 0 <= i < |LeaderLog(s)| && LeaderLog(s)[i] == e;
      assert s.logs[s.leader.value][i].number < Tally(s.sent, e.pid);
    }
    StoredPlusSurplus(LeaderLog(s));
    SplitByIntersection(Stored(LeaderLog(s)), Sent(pid, count));
    assert Stored(LeaderLog(s)) - Sent(pid, count) == {};
  }

  // With idempotence the disk never holds more than COUNT messages, and exactly COUNT once a
  // flush finished without errors.
  lemma {:induction false} IdempotentCount(c: Config, events: seq<Event>, pid: nat)
    requires Durable(c) && c.idempotent
    requires var s := Reach(c, events); Led(s) && OnlyProducer(s, pid)
    ensures var s := Reach(c, events);
            && |LeaderLog(s)| <= Tally(s.sent, pid)
            && (FlushedWithoutErrors(s, pid) ==> |LeaderLog(s)| == Tally(s.sent, pid))
  {
    var s := Reach(c, events);
    var log := LeaderLog(s);
    var count := Tally(s.sent, pid);
    ReachDeduplicated(c, events);
    forall i, j | 0 <= i < j < |log|
      ensures log[i] != log[j]
    {
      NoDuplicates(log, i, j);
    }
    NoSurplus(log);
    DuplicatesExact(c, events, pid);
    if FlushedWithoutErrors(s, pid) {
      ConfirmedOnDisk(c, events);
      SentExact(pid, count);
      assert Sent(pid, count) - Stored(log) == {};
    }
  }
}
