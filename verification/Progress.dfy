/**
  What the partition does get done: followers copy, messages are acknowledged and confirmed, brokers
  fail over and come back. The other results say what no run may break; these say that some runs arrive.
  */
module Progress {
  import opened Basics
  import opened Replication
  import opened Traces
  import opened Durability

  // ---- every reachable state is in shape, whatever the setting ----

  lemma {:induction false} StepShape(c: Config, s: State, e: Event)
    requires Shape(c, s)
    ensures Shape(c, Step(c, s, e))
  {
  }

  lemma {:induction false} ReachShape(c: Config, events: seq<Event>)
    ensures Shape(c, Reach(c, events))
    decreases |events|
  {
    if events != [] {
      ReachShape(c, events[..|events| - 1]);
      StepShape(c, Reach(c, events[..|events| - 1]), events[|events| - 1]);
    }
  }

  // ---- fetching ----

  // A live follower that asks for everything ends up with the leader's log; one that asks for less
  // holds the leader's log that far, or as far as it already shared it.
  lemma {:induction false} FetchCopies(s: State, f: nat, upTo: nat)
    requires Led(s) && f != s.leader.value && f in s.alive && f < |s.logs|
    ensures var t := StepFetch(s, f, upTo);
            var shared := Shared(s.logs[f], LeaderLog(s));
            && Led(t) && LeaderLog(t) == LeaderLog(s) && |t.logs| == |s.logs|
            && t.logs[f] <= LeaderLog(s)
            && (upTo >= |LeaderLog(s)| ==> t.logs[f] == LeaderLog(s))
            && (upTo < |LeaderLog(s)| ==> |t.logs[f]| == if upTo > shared then upTo else shared)
            && (forall r :: 0 <= r < |s.logs| && r != f ==> t.logs[r] == s.logs[r])
  {
  }

  ghost predicate AllFetches(events: seq<Event>) {
    forall e :: e in events ==> e.Fetch?
  }

  // What fetches leave alone.
  ghost predicate SameButLogs(s: State, t: State) {
    && t == s.(logs := t.logs) && |t.logs| == |s.logs|
    && Led(s) && LeaderLog(t) == LeaderLog(s)
  }

  lemma {:induction false} FetchKeeps(s: State, f: nat, upTo: nat)
    requires Led(s)
    ensures SameButLogs(s, StepFetch(s, f, upTo))
  {
  }

  lemma {:induction false} FetchesKeep(c: Config, s: State, fetches: seq<Event>)
    requires Led(s) && AllFetches(fetches)
    ensures SameButLogs(s, Run(c, s, fetches))
    decreases |fetches|
  {
    if fetches != [] {
      var before, e := fetches[..|fetches| - 1], fetches[|fetches| - 1];
      assert e in fetches && forall x :: x in before ==> x in fetches;
      FetchesKeep(c, s, before);
      FetchKeeps(Run(c, s, before), e.follower, e.upTo);
    }
  }

  // A replica that holds the leader's log up to an offset keeps holding it through further fetches.
  lemma {:induction false} FetchKeepsHolding(c: Config, s: State, e: Event, r: nat, offset: nat)
    requires Led(s) && e.Fetch? && offset < |LeaderLog(s)| && Holds(s, r, offset)
    ensures var t := Step(c, s, e); SameButLogs(s, t) && Holds(t, r, offset)
  {
    var log := LeaderLog(s);
    if e.follower == r && r != s.leader.value {
      SharedIsLongest(s.logs[r], log, log[..offset + 1]);
    }
  }

  lemma {:induction false} FetchedHolds(c: Config, s: State, fetches: seq<Event>, r: nat, upTo: nat, offset: nat)
    requires Led(s) && AllFetches(fetches) && offset < |LeaderLog(s)| && offset < upTo
    requires r < |s.logs| && r != s.leader.value && r in s.alive && Fetch(r, upTo) in fetches
    ensures SameButLogs(s, Run(c, s, fetches)) && Holds(Run(c, s, fetches), r, offset)
    decreases |fetches|
  {
    var n := |fetches| - 1;
    var before := Run(c, s, fetches[..n]);
    FetchesKeep(c, s, fetches[..n]);
    if fetches[n] == Fetch(r, upTo) {
      FetchCopies(before, r, upTo);
    } else {
      assert fetches == fetches[..n] + [fetches[n]];
      FetchedHolds(c, s, fetches[..n], r, upTo, offset);
      FetchKeepsHolding(c, before, fetches[n], r, offset);
    }
  }

  // ---- acknowledging ----

  // Every in-sync follower is up and fetches past the offset at some point of these fetches.
  ghost predicate AllFetchPast(s: State, fetches: seq<Event>, offset: nat) {
    && Led(s) && AllFetches(fetches)
    && (forall r :: r in s.isr && r != s.leader.value ==>
          r in s.alive && exists upTo :: upTo > offset && Fetch(r, upTo) in fetches)
  }

  ghost predicate EnoughInSync(c: Config, s: State) {
    c.acks.AllInSync? ==> |s.isr| >= c.minIsr
  }

  // Once every member of the ISR has fetched past an offset, and the ISR is large enough, the leader
  // acknowledges it, in whatever order the fetches came.
  lemma {:induction false} FetchedIsAcknowledged(c: Config, s: State, fetches: seq<Event>, offset: nat)
    requires Shape(c, s) && AllFetchPast(s, fetches, offset) && EnoughInSync(c, s)
    requires offset < |LeaderLog(s)|
    ensures var t := Run(c, s, fetches + [Acknowledge(offset)]);
            && Led(t) && LeaderLog(t) == LeaderLog(s)
            && t.acks == s.acks + {Ack(LeaderLog(s)[offset], offset)}
            && (forall r :: r in s.isr ==> Holds(t, r, offset))
            && t.sent == s.sent && t.failed == s.failed && t.confirmed == s.confirmed
  {
    var all := fetches + [Acknowledge(offset)];
    var mid := Run(c, s, fetches);
    assert all[..|fetches|] == fetches;
    FetchesKeep(c, s, fetches);
    forall r | r in s.isr
      ensures Holds(mid, r, offset)
    {
      if r != s.leader.value {
        var upTo :| upTo > offset && Fetch(r, upTo) in fetches;
        FetchedHolds(c, s, fetches, r, upTo, offset);
      }
    }
    assert MayAcknowledge(c, mid, offset);
  }

  // ---- one message, from send to callback ----

  ghost predicate FailedWasSent(s: State) {
    forall e :: e in s.failed ==> e.number < Tally(s.sent, e.pid)
  }

  lemma {:induction false} ReachFailedWasSent(c: Config, events: seq<Event>)
    ensures FailedWasSent(Reach(c, events))
    decreases |events|
  {
    if events != [] {
      ReachFailedWasSent(c, events[..|events| - 1]);
    }
  }

  lemma {:induction false} SendAndDeliver(c: Config, s: State, pid: nat)
    requires Shape(c, s) && Led(s) && (c.idempotent ==> Tally(s.next, pid) == Tally(s.sent, pid))
    ensures var number := Tally(s.sent, pid);
            var t := Run(c, s, [Send(pid), Deliver(pid, number)]);
            && Shape(c, t) && Led(t) && LeaderLog(t) == LeaderLog(s) + [Entry(pid, number)]
            && t.isr == s.isr && t.alive == s.alive && t.leader == s.leader
            && t.failed == s.failed && Tally(t.sent, pid) == number + 1
  {
    var number := Tally(s.sent, pid);
    var sent := Step(c, s, Send(pid));
    var t := Step(c, sent, Deliver(pid, number));
    Trace(c, [s, sent, t], [Send(pid), Deliver(pid, number)]);
    StepShape(c, s, Send(pid));
    StepShape(c, sent, Deliver(pid, number));
  }

  // With every in-sync follower up and the ISR large enough, a new message gets through, under either
  // acks setting: stored at the end of the leader's log, copied by the whole ISR, acknowledged at its
  // offset and confirmed to the producer.
  lemma {:induction false} WriteIsConfirmed(c: Config, events: seq<Event>, pid: nat, fetches: seq<Event>)
    requires var s := Reach(c, events);
             && Led(s) && AllFetchPast(s, fetches, |LeaderLog(s)|) && EnoughInSync(c, s)
             && (c.idempotent ==> Tally(s.next, pid) == Tally(s.sent, pid))
    ensures var s := Reach(c, events);
            var e, offset := Entry(pid, Tally(s.sent, pid)), |LeaderLog(s)|;
            var t := Run(c, Run(c, Run(c, s, [Send(pid), Deliver(pid, e.number)]), fetches + [Acknowledge(offset)]),
                         [Callback(Ack(e, offset))]);
            && Led(t) && LeaderLog(t) == LeaderLog(s) + [e] && e in t.confirmed
            && (forall r :: r in s.isr ==> r < |t.logs| && LeaderLog(t) <= t.logs[r])
  {
    var s := Reach(c, events);
    var e, offset := Entry(pid, Tally(s.sent, pid)), |LeaderLog(s)|;
    ReachShape(c, events);
    ReachFailedWasSent(c, events);
    SendAndDeliver(c, s, pid);
    var stored := Run(c, s, [Send(pid), Deliver(pid, e.number)]);
    FetchedIsAcknowledged(c, stored, fetches, offset);
    var acked := Run(c, stored, fetches + [Acknowledge(offset)]);
    assert LeaderLog(acked)[..offset + 1] == LeaderLog(acked);
    Trace(c, [acked, Step(c, acked, Callback(Ack(e, offset)))], [Callback(Ack(e, offset))]);
  }

  // ---- brokers that stop and return ----

  // A follower that stops leaves the ISR, and after restarting, fetching and rejoining everything is as
  // before, except that it has caught up. It rejoins under either join rule.
  lemma {:induction false} FollowerReturns(c: Config, s: State, f: nat)
    requires Shape(c, s) && s.leader.Some? && f in s.isr && f in s.alive && f != s.leader.value
    ensures var upTo := |s.logs[s.leader.value]|;
            Run(c, s, [Crash(f), Shrink(f)]) == s.(alive := s.alive - {f}, isr := s.isr - {f}) &&
            Run(c, s, [Crash(f), Shrink(f), Restart(f), Fetch(f, upTo), Expand(f)])
            == s.(logs := s.logs[f := s.logs[s.leader.value]])
  {
    var log := LeaderLog(s);
    var s1 := s.(alive := s.alive - {f});
    var s2 := s1.(isr := s.isr - {f});
    var s3 := s2.(alive := s.alive);
    var s4 := s3.(logs := s.logs[f := log]);
    var s5 := s4.(isr := s.isr);
    assert s.alive - {f} + {f} == s.alive && s.isr - {f} + {f} == s.isr;
    FetchCopies(s3, f, |log|);
    Trace(c, [s, s1, s2], [Crash(f), Shrink(f)]);
    Trace(c, [s, s1, s2, s3, s4, s5], [Crash(f), Shrink(f), Restart(f), Fetch(f, |log|), Expand(f)]);
  }

  // A leader that stops hands over to an in-sync follower, with all in-sync followers that are up, and
  // then returns as a follower of its successor.
  lemma {:induction false} LeaderReturns(c: Config, s: State, r: nat)
    requires Shape(c, s) && s.leader.Some? && r in s.isr && r in s.alive && r != s.leader.value
    ensures var l, upTo := s.leader.value, |s.logs[r]|;
            && Run(c, s, [Crash(l), Elect(r)])
               == s.(leader := Some(r), alive := s.alive - {l}, isr := s.isr * s.alive - {l}, next := Rebuild(s.logs[r]))
            && Run(c, s, [Crash(l), Elect(r), Restart(l), Fetch(l, upTo), Expand(l)])
               == s.(leader := Some(r), isr := s.isr * s.alive, next := Rebuild(s.logs[r]),
                     logs := s.logs[l := s.logs[r]])
  {
    var l, log := s.leader.value, s.logs[r];
    var s1 := s.(alive := s.alive - {l}, leader := None);
    var s2 := s1.(leader := Some(r), isr := s.isr * s.alive - {l}, next := Rebuild(log));
    var s3 := s2.(alive := s.alive);
    var s4 := s3.(logs := s.logs[l := log]);
    var s5 := s4.(isr := s.isr * s.alive);
    assert s.alive - {l} + {l} == s.alive && s.isr * s.alive - {l} + {l} == s.isr * s.alive;
    assert s.isr * (s.alive - {l}) == s.isr * s.alive - {l};
    FetchCopies(s3, l, |log|);
    Trace(c, [s, s1, s2], [Crash(l), Elect(r)]);
    Trace(c, [s, s1, s2, s3, s4, s5], [Crash(l), Elect(r), Restart(l), Fetch(l, |log|), Expand(l)]);
  }

  // ---- reports ----

  // A message is never reported both ways, in any run; one not reported yet can still fail.
  lemma {:induction false} ReportedOnce(c: Config, events: seq<Event>, pid: nat, number: nat)
    ensures var s := Reach(c, events);
            var e, t := Entry(pid, number), Reach(c, events + [Fail(pid, number)]);
            && s.confirmed !! s.failed
            && (number < Tally(s.sent, pid) && e !in s.confirmed ==> t == s.(failed := s.failed + {e}))
            && (e in s.confirmed || number >= Tally(s.sent, pid) ==> t == s)
    decreases |events|
  {
    assert (events + [Fail(pid, number)])[..|events|] == events;
    if events != [] {
      ReportedOnce(c, events[..|events| - 1], pid, number);
    }
  }

  // ---- who takes part ----

  // Only running brokers join the ISR or become leader, and only they write to their logs.
  lemma {:induction false} OnlyRunningTakePart(c: Config, s: State, e: Event, r: nat)
    requires Shape(c, s) && r !in s.alive
    ensures var t := Step(c, s, e);
            && (r in t.isr ==> r in s.isr)
            && (t.leader == Some(r) ==> s.leader == Some(r))
            && (r < |s.logs| ==> r < |t.logs| && t.logs[r] == s.logs[r])
  {
  }

  // With no in-sync replica up and unclean election off, the partition stays offline, whatever else
  // happens, until one of them returns.
  lemma {:induction false} OfflineUntilReturn(c: Config, s: State, events: seq<Event>)
    requires Shape(c, s) && !c.uncleanElection && s.leader == None && s.isr * s.alive == {}
    requires forall e :: e in events && e.Restart? ==> e.broker !in s.isr
    ensures var t := Run(c, s, events);
            t.leader == None && t.isr == s.isr && t.isr * t.alive == {} && t.logs == s.logs
    decreases |events|
  {
    if events != [] {
      var before, e := events[..|events| - 1], events[|events| - 1];
      assert e in events && forall x :: x in before ==> x in events;
      OfflineUntilReturn(c, s, before);
      OfflineStep(c, Run(c, s, before), e);
    }
  }

  lemma {:induction false} OfflineStep(c: Config, s: State, e: Event)
    requires !c.uncleanElection && s.leader == None && s.isr * s.alive == {}
    requires e.Restart? ==> e.broker !in s.isr
    ensures var t := Step(c, s, e);
            t.leader == None && t.isr == s.isr && t.isr * t.alive == {} && t.logs == s.logs
  {
    forall x | x in s.isr
      ensures x !in s.alive
    {
      assert x in s.alive ==> x in s.isr * s.alive;
    }
  }

  // An unclean election takes effect exactly when it is allowed, nobody leads, no in-sync replica is up
  // and the candidate is; then the new leader is the whole ISR. In all other states nothing happens.
  lemma {:induction false} UncleanElectionExactly(c: Config, s: State, r: nat)
    requires Shape(c, s)
    ensures var t := Step(c, s, ElectUnclean(r));
            && (t != s <==> c.uncleanElection && s.leader == None && s.isr * s.alive == {} && r in s.alive)
            && (t != s ==> t.leader == Some(r) && t.isr == {r} && t.logs == s.logs && t.alive == s.alive)
  {
  }
}
