/**
  What an acknowledgement is worth.

  With acks=all and clean elections no acknowledged message is ever lost, whatever else happens.
  Each of the three ways to weaken that (acks=1, joining the ISR too early, unclean election)
  loses messages, and the lemmas say exactly when.
  */
module Durability {
  import opened Basics
  import opened Replication

  // The setting the source calls safe: acks=all, no unclean election, followers join caught up.
  predicate Durable(c: Config) {
    c.acks.AllInSync? && !c.uncleanElection && c.joinRule.CaughtUp?
  }

  // No unclean election ever takes effect: the setting forbids them, or none is attempted.
  ghost predicate CleanElections(c: Config, events: seq<Event>) {
    c.uncleanElection ==> forall e :: e in events ==> !e.ElectUnclean?
  }

  // Whoever joins the ISR in this step holds everything acknowledged so far.
  ghost predicate JoinsHolding(c: Config, s: State, e: Event) {
    forall r :: e.Expand? && r in Step(c, s, e).isr && r !in s.isr ==> r < |s.logs| && s.committed <= s.logs[r]
  }

  // So it does throughout a run.
  ghost predicate GuardedJoins(c: Config, events: seq<Event>) {
    forall n :: 0 <= n < |events| ==> JoinsHolding(c, Reach(c, events[..n]), events[n])
  }

  ghost predicate Shape(c: Config, s: State) {
    && |s.logs| == c.brokers
    && s.alive <= Brokers(c.brokers)
    && s.isr <= Brokers(c.brokers)
    && (s.leader.Some? ==> s.leader.value in s.alive && s.leader.value in s.isr)
  }

  // Every in-sync replica, running or stopped, holds the acknowledged prefix.
  ghost predicate Replicated(s: State) {
    forall r :: r in s.isr ==> r < |s.logs| && s.committed <= s.logs[r]
  }

  ghost predicate Acknowledged(s: State, e: Entry) {
    exists a :: a in s.acks && a.entry == e
  }

  // Acknowledgements lie inside the committed prefix, and its last entry is acknowledged.
  ghost predicate AcksCommitted(s: State) {
    && (forall a :: a in s.acks ==> a.offset < |s.committed| && s.committed[a.offset] == a.entry)
    && (s.committed != [] ==> Ack(s.committed[|s.committed| - 1], |s.committed| - 1) in s.acks)
    && (forall e :: e in s.confirmed ==> Acknowledged(s, e))
  }

  ghost predicate Safe(c: Config, s: State) {
    Shape(c, s) && Replicated(s) && AcksCommitted(s)
  }

  // A log still has an acknowledged message where it was acknowledged.
  predicate Keeps(log: seq<Entry>, a: Ack) {
    a.offset < |log| && log[a.offset] == a.entry
  }

  lemma {:induction false} InitSafe(c: Config)
    ensures Safe(c, Init(c))
  {
    if c.brokers > 0 {
      assert 0 in Brokers(c.brokers);
    }
  }

  lemma {:induction false} FetchSafe(c: Config, s: State, f: nat, upTo: nat)
    requires Safe(c, s)
    ensures Safe(c, StepFetch(s, f, upTo))
  {
    if Led(s) && f in s.isr {
      SharedIsLongest(s.logs[f], LeaderLog(s), s.committed);
    }
  }

  lemma {:induction false} AcknowledgeSafe(c: Config, s: State, offset: nat)
    requires Safe(c, s) && c.acks.AllInSync?
    ensures Safe(c, StepAcknowledge(c, s, offset))
  {
    var t := StepAcknowledge(c, s, offset);
    if MayAcknowledge(c, s, offset) {
      assert s.committed <= LeaderLog(s);
      assert s.committed <= t.committed;
      forall r | r in t.isr
        ensures r < |t.logs| && t.committed <= t.logs[r]
      {
        assert Holds(s, r, offset);
      }
      forall e | e in t.confirmed
        ensures Acknowledged(t, e)
      {
        assert Acknowledged(s, e);
      }
    }
  }

  // A step that acknowledges nothing is safe when in-sync logs only grow.
  lemma {:induction false} QuietStepSafe(c: Config, s: State, t: State)
    requires Safe(c, s) && Shape(c, t)
    requires t.committed == s.committed && t.acks == s.acks
    requires forall r :: r in t.isr ==> s.committed <= t.logs[r]
    requires forall e :: e in t.confirmed ==> e in s.confirmed || Acknowledged(s, e)
    ensures Safe(c, t)
  {
    forall e | e in t.confirmed
      ensures Acknowledged(t, e)
    {
      assert Acknowledged(s, e);
      var a :| a in s.acks && a.entry == e;
      assert a in t.acks;
    }
  }

  lemma {:induction false} DeliverSafe(c: Config, s: State, pid: nat, number: nat)
    requires Safe(c, s)
    ensures Safe(c, StepDeliver(c, s, pid, number))
  {
    QuietStepSafe(c, s, StepDeliver(c, s, pid, number));
  }

  lemma {:induction false} CallbackSafe(c: Config, s: State, a: Ack)
    requires Safe(c, s)
    ensures Safe(c, Step(c, s, Callback(a)))
  {
    assert a in s.acks ==> Acknowledged(s, a.entry);
    QuietStepSafe(c, s, Step(c, s, Callback(a)));
  }

  lemma {:induction false} ExpandSafe(c: Config, s: State, f: nat)
    requires Safe(c, s) && JoinsHolding(c, s, Expand(f))
    ensures Safe(c, StepExpand(c, s, f))
  {
    var t := Step(c, s, Expand(f));
    assert t == StepExpand(c, s, f);
    forall r | r in t.isr
      ensures s.committed <= t.logs[r]
    {
      assert r in s.isr || s.committed <= s.logs[r];
    }
    QuietStepSafe(c, s, t);
  }

  // A caught-up follower holds whatever its leader holds.
  lemma {:induction false} CaughtUpHolds(c: Config, s: State, e: Event)
    requires Safe(c, s) && c.joinRule.CaughtUp?
    ensures JoinsHolding(c, s, e)
  {
    if Led(s) {
      assert s.committed <= LeaderLog(s);
    }
  }

  // Membership changes other than joining: nobody new enters the ISR.
  lemma {:induction false} MembershipSafe(c: Config, s: State, e: Event)
    requires Safe(c, s) && (e.ElectUnclean? ==> !c.uncleanElection)
    requires e.Shrink? || e.Crash? || e.Restart? || e.Elect? || e.ElectUnclean?
    ensures Safe(c, Step(c, s, e))
  {
    QuietStepSafe(c, s, Step(c, s, e));
  }

  lemma {:induction false} StepSafe(c: Config, s: State, e: Event)
    requires Safe(c, s) && c.acks.AllInSync? && CleanElections(c, [e]) && JoinsHolding(c, s, e)
    ensures Safe(c, Step(c, s, e))
  {
    assert e in [e];
    match e
    case Send(_) => QuietStepSafe(c, s, Step(c, s, e));
    case Fail(_, _) => QuietStepSafe(c, s, Step(c, s, e));
    case Deliver(pid, number) => DeliverSafe(c, s, pid, number);
    case Fetch(f, upTo) => FetchSafe(c, s, f, upTo);
    case Acknowledge(offset) => AcknowledgeSafe(c, s, offset);
    case Callback(a) => CallbackSafe(c, s, a);
    case Expand(f) => ExpandSafe(c, s, f);
    case _ => MembershipSafe(c, s, e);
  }

  lemma {:induction false} GuardedPrefix(c: Config, events: seq<Event>, n: nat)
    requires GuardedJoins(c, events) && n < |events|
    ensures GuardedJoins(c, events[..n]) && JoinsHolding(c, Reach(c, events[..n]), events[n])
  {
    forall k | 0 <= k < n
      ensures JoinsHolding(c, Reach(c, events[..n][..k]), events[..n][k])
    {
      assert events[..n][..k] == events[..k];
    }
  }

  // Whatever the join rule: as long as followers join holding what is acknowledged, every state of
  // the run is safe.
  lemma {:induction false} GuardedSafe(c: Config, events: seq<Event>)
    requires c.acks.AllInSync? && CleanElections(c, events) && GuardedJoins(c, events)
    ensures Safe(c, Reach(c, events))
    decreases |events|
  {
    if events == [] {
      InitSafe(c);
    } else {
      var n := |events| - 1;
      GuardedPrefix(c, events, n);
      GuardedSafe(c, events[..n]);
      StepSafe(c, Reach(c, events[..n]), events[n]);
    }
  }

  // Every state any run reaches in the durable setting is safe.
  lemma {:induction false} ReachSafe(c: Config, events: seq<Event>)
    requires Durable(c)
    ensures Safe(c, Reach(c, events))
    decreases |events|
  {
    if events == [] {
      InitSafe(c);
    } else {
      var n := |events| - 1;
      ReachSafe(c, events[..n]);
      CaughtUpHolds(c, Reach(c, events[..n]), events[n]);
      StepSafe(c, Reach(c, events[..n]), events[n]);
    }
  }

  lemma {:induction false} AcksGrow(c: Config, s: State, events: seq<Event>)
    ensures s.acks <= Run(c, s, events).acks
    decreases |events|
  {
    if events != [] {
      AcksGrow(c, s, events[..|events| - 1]);
    }
  }

  // The promise of acks=all: whatever happens after an acknowledgement, any leader there is
  // holds that very message at that very offset.
  lemma {:induction false} NoAcknowledgedLoss(c: Config, before: seq<Event>, after: seq<Event>, a: Ack)
    requires Durable(c)
    requires a in Reach(c, before).acks
    ensures var s := Reach(c, before + after); Led(s) ==> Keeps(LeaderLog(s), a)
  {
    RunAppend(c, Init(c), before, after);
    AcksGrow(c, Reach(c, before), after);
    ReachSafe(c, before + after);
  }

  // The same under any join rule, for the runs in which every join happens to be guarded.
  lemma {:induction false} GuardedNoLoss(c: Config, before: seq<Event>, after: seq<Event>, a: Ack)
    requires c.acks.AllInSync? && CleanElections(c, before + after) && GuardedJoins(c, before + after)
    requires a in Reach(c, before).acks
    ensures var s := Reach(c, before + after); Led(s) ==> Keeps(LeaderLog(s), a)
  {
    RunAppend(c, Init(c), before, after);
    AcksGrow(c, Reach(c, before), after);
    GuardedSafe(c, before + after);
  }

  // What the acks simulation counts: every confirmed message is on the surviving leader's disk.
  lemma {:induction false} ConfirmedOnDisk(c: Config, events: seq<Event>)
    requires Durable(c)
    ensures var s := Reach(c, events);
            Led(s) ==> forall e :: e in s.confirmed ==> e in LeaderLog(s)
  {
    ReachSafe(c, events);
    var s := Reach(c, events);
    if Led(s) {
      forall e | e in s.confirmed
        ensures e in LeaderLog(s)
      {
        assert Acknowledged(s, e);
        var a :| a in s.acks && a.entry == e;
        assert LeaderLog(s)[a.offset] == e;
      }
    }
  }

  // min.insync.replicas, both halves. A new acknowledgement is only ever issued with at least
  // minIsr replicas in sync, and then losing any minIsr - 1 brokers leaves a copy.
  lemma {:induction false} AckSurvivesMinIsrLosses(c: Config, s: State, e: Event, a: Ack, lost: set<nat>)
    requires c.acks.AllInSync?
    requires a !in s.acks && a in Step(c, s, e).acks
    requires |lost| < c.minIsr
    ensures |s.isr| >= c.minIsr
    ensures exists r :: r in s.isr && r !in lost && r < |s.logs| && Keeps(s.logs[r], a)
  {
    if s.isr <= lost {
      SubsetSize(s.isr, lost);
    }
    var r :| r in s.isr && r !in lost;
    assert Holds(s, r, a.offset);
  }

  lemma {:induction false} SubsetSize(a: set<nat>, b: set<nat>)
    requires a <= b
    ensures |a| <= |b|
  {
    if a != {} {
      var x :| x in a;
      SubsetSize(a - {x}, b - {x});
    }
  }

  // ---- and it stays that way ----

  // The replicas, running or stopped, that hold the first n acknowledged entries.
  function Holders(s: State, n: nat): set<nat>
    requires n <= |s.committed|
  {
    set r | 0 <= r < |s.logs| && s.committed[..n] <= s.logs[r]
  }

  // Fetching never makes a replica drop an acknowledged entry it holds.
  lemma {:induction false} FetchKeepsHolder(c: Config, s: State, f: nat, upTo: nat, n: nat, r: nat)
    requires Safe(c, s) && n <= |s.committed| && r in Holders(s, n)
    ensures r in Holders(StepFetch(s, f, upTo), n)
  {
    if Led(s) && r == f {
      assert s.committed <= LeaderLog(s);
      SharedIsLongest(s.logs[f], LeaderLog(s), s.committed[..n]);
    }
  }

  lemma {:induction false} CommittedGrows(c: Config, s: State, e: Event)
    requires Safe(c, s)
    ensures s.committed <= Step(c, s, e).committed
  {
    if Led(s) {
      assert s.committed <= LeaderLog(s);
    }
  }

  lemma {:induction false} StepKeepsHolders(c: Config, s: State, e: Event, n: nat)
    requires Safe(c, s) && n <= |s.committed|
    ensures n <= |Step(c, s, e).committed| && Holders(s, n) <= Holders(Step(c, s, e), n)
  {
    var t := Step(c, s, e);
    CommittedGrows(c, s, e);
    assert t.committed[..n] == s.committed[..n];
    forall r | r in Holders(s, n)
      ensures r in Holders(t, n)
    {
      if e.Fetch? { FetchKeepsHolder(c, s, e.follower, e.upTo, n, r); }
    }
  }

  // An acknowledgement needs the whole ISR, and that is at least minIsr replicas.
  lemma {:induction false} AckHasHolders(c: Config, s: State, e: Event, a: Ack)
    requires Safe(c, s) && Safe(c, Step(c, s, e)) && c.acks.AllInSync?
    requires a !in s.acks && a in Step(c, s, e).acks
    ensures |Holders(Step(c, s, e), a.offset + 1)| >= c.minIsr
  {
    var t := Step(c, s, e);
    assert t.logs == s.logs && t.committed[..a.offset + 1] == LeaderLog(s)[..a.offset + 1];
    forall r | r in s.isr
      ensures r in Holders(t, a.offset + 1)
    {
      assert Holds(s, r, a.offset);
    }
    SubsetSize(s.isr, Holders(t, a.offset + 1));
  }

  lemma {:induction false} AcksHeld(c: Config, events: seq<Event>, a: Ack)
    requires Durable(c) && a in Reach(c, events).acks
    ensures a.offset < |Reach(c, events).committed|
    ensures |Holders(Reach(c, events), a.offset + 1)| >= c.minIsr
    decreases |events|
  {
    ReachSafe(c, events);
    if events != [] {
      var before, e := events[..|events| - 1], events[|events| - 1];
      var s := Reach(c, before);
      ReachSafe(c, before);
      if a in s.acks {
        AcksHeld(c, before, a);
        StepKeepsHolders(c, s, e, a.offset + 1);
        SubsetSize(Holders(s, a.offset + 1), Holders(Step(c, s, e), a.offset + 1));
      } else {
        AckHasHolders(c, s, e, a);
      }
    }
  }

  // At every later point of every run, whoever leads by then and whoever is down: losing any minIsr - 1
  // brokers for good leaves a replica with the acknowledged message at its offset.
  lemma {:induction false} AckSurvivesLaterLosses(c: Config, before: seq<Event>, after: seq<Event>, a: Ack, lost: set<nat>)
    requires Durable(c) && a in Reach(c, before).acks && |lost| < c.minIsr
    ensures var s := Reach(c, before + after);
            exists r :: 0 <= r < |s.logs| && r !in lost && Keeps(s.logs[r], a)
  {
    var s := Reach(c, before + after);
    RunAppend(c, Init(c), before, after);
    AcksGrow(c, Reach(c, before), after);
    AcksHeld(c, before + after, a);
    ReachSafe(c, before + after);
    var holders := Holders(s, a.offset + 1);
    if holders <= lost {
      SubsetSize(holders, lost);
    }
    var r :| r in holders && r !in lost;
    assert s.committed[..a.offset + 1][a.offset] == a.entry;
    assert Keeps(s.logs[r], a);
  }

  // The leader, then the follower f, as a broker failure right after f joined the ISR has it.
  function Failover(s: State, f: nat): seq<Event>
    requires s.leader.Some?
  {
    [Crash(s.leader.value), Elect(f)]
  }

  // After a failover to f the leader log is f's log.
  lemma {:induction false} FailoverState(c: Config, s: State, f: nat)
    requires Shape(c, s) && s.leader.Some? && f != s.leader.value && f in s.isr && f in s.alive
    ensures var t := Run(c, s, Failover(s, f));
            Led(t) && LeaderLog(t) == s.logs[f] && t.acks == s.acks && t.confirmed == s.confirmed
  {
    var events := Failover(s, f);
    assert events[..1] == [Crash(s.leader.value)];
    assert events[..1][..0] == [];
    assert Run(c, s, events[..1]) == Step(c, s, events[0]);
  }

  // An ISR rule that only asks for a recent fetch is unsafe, and this is exactly when: a follower
  // that joins after fetching part of the log can be elected without losing an acknowledged
  // message if and only if it had fetched up to the high watermark.
  lemma {:induction false} JoinRuleExact(c: Config, s: State, f: nat)
    requires Safe(c, s) && Led(s) && c.joinRule.RecentFetch?
    requires f in s.alive && f != s.leader.value && s.logs[f] <= LeaderLog(s)
    ensures var t := Run(c, Step(c, s, Expand(f)), Failover(s, f));
            Led(t) &&
            ((forall a :: a in t.acks ==> Keeps(LeaderLog(t), a)) <==> |s.committed| <= |s.logs[f]|)
  {
    var joined := Step(c, s, Expand(f));
    FailoverState(c, joined, f);
    assert s.committed <= LeaderLog(s);
    if |s.committed| > |s.logs[f]| {
      var top := Ack(s.committed[|s.committed| - 1], |s.committed| - 1);
      assert top in joined.acks && !Keeps(s.logs[f], top);
    }
  }

  // Over whole runs: after any guarded run, a follower that has fetched from the leader may join
  // without endangering an acknowledged message if and only if the guard holds for it too.
  lemma {:induction false} JoinGuardExact(c: Config, events: seq<Event>, f: nat)
    requires c.acks.AllInSync? && c.joinRule.RecentFetch? && CleanElections(c, events) && GuardedJoins(c, events)
    requires var s := Reach(c, events);
             && Led(s) && f in s.alive && f !in s.isr && f < |s.logs| && s.logs[f] <= LeaderLog(s)
    ensures var s := Reach(c, events);
            var t := Run(c, Step(c, s, Expand(f)), Failover(s, f));
            Led(t) &&
            ((forall a :: a in t.acks ==> Keeps(LeaderLog(t), a)) <==> JoinsHolding(c, s, Expand(f)))
  {
    var s := Reach(c, events);
    GuardedSafe(c, events);
    JoinRuleExact(c, s, f);
    assert s.committed <= LeaderLog(s);
    assert f in Step(c, s, Expand(f)).isr;
    assert |s.committed| <= |s.logs[f]| <==> s.committed <= s.logs[f];
  }

  lemma {:induction false} SharedExact(a: seq<Entry>, b: seq<Entry>, n: nat)
    requires n <= |b|
    ensures b[..n] <= a <==> n <= Shared(a, b)
  {
    if b[..n] <= a {
      SharedIsLongest(a, b, b[..n]);
    }
    if n <= Shared(a, b) {
      assert b[..n] == b[..Shared(a, b)][..n] == a[..Shared(a, b)][..n] == a[..n];
    }
  }

  // Unclean election brings any replica's log back online, stale or diverged. The acknowledged
  // prefix survives exactly as far as that log agrees with it; of a log that merely stops early,
  // exactly the acknowledged messages from its end on are gone.
  lemma {:induction false} UncleanElectionLoss(c: Config, s: State, r: nat, n: nat, a: Ack)
    requires Safe(c, s) && c.uncleanElection && s.leader.None? && s.isr * s.alive == {}
    requires r in s.alive && n <= |s.committed| && a in s.acks
    ensures var t := Step(c, s, ElectUnclean(r));
            var agreed := Shared(s.logs[r], s.committed);
            && Led(t)
            && (s.committed[..n] <= LeaderLog(t) <==> n <= agreed)
            && (a.offset < agreed ==> Keeps(LeaderLog(t), a))
            && (s.logs[r] <= s.committed ==> (Keeps(LeaderLog(t), a) <==> a.offset < |s.logs[r]|))
  {
    var agreed := Shared(s.logs[r], s.committed);
    assert s.committed[a.offset] == a.entry;
    if a.offset < agreed {
      assert s.logs[r][..agreed][a.offset] == s.committed[..agreed][a.offset];
    }
    SharedExact(s.logs[r], s.committed, n);
  }

  // While the first leader stays up, every replica holds a prefix of its log and every
  // acknowledgement, whatever the acks setting, names an entry of it.
  ghost predicate FirstTerm(c: Config, s: State) {
    && Shape(c, s)
    && s.leader == Some(0)
    && (forall r :: 0 <= r < |s.logs| ==> s.logs[r] <= LeaderLog(s))
    && (forall a :: a in s.acks ==> Keeps(LeaderLog(s), a))
  }

  lemma {:induction false} FirstTermRun(c: Config, events: seq<Event>)
    requires c.brokers > 0 && Crash(0) !in events
    ensures FirstTerm(c, Reach(c, events))
    decreases |events|
  {
    if events == [] {
      assert 0 in Brokers(c.brokers);
    } else {
      var n := |events| - 1;
      FirstTermRun(c, events[..n]);
      assert events[n] in events;
      FirstTermStep(c, Reach(c, events[..n]), events[n]);
    }
  }

  lemma {:induction false} FirstTermStep(c: Config, s: State, e: Event)
    requires FirstTerm(c, s) && e != Crash(0)
    ensures FirstTerm(c, Step(c, s, e))
  {
  }

  // The simulation's kill: the first leader stops, an in-sync follower takes over. With acks=1
  // the acknowledged messages that survive are exactly those the follower had fetched.
  lemma {:induction false} LeaderKillLoss(c: Config, events: seq<Event>, f: nat, a: Ack)
    requires c.brokers > 0 && Crash(0) !in events
    requires var s := Reach(c, events);
             f != 0 && f in s.isr && f in s.alive && a in s.acks
    ensures var s := Reach(c, events);
            s.leader == Some(0) && f < |s.logs| &&
            var t := Run(c, s, Failover(s, f));
            Led(t) && (Keeps(LeaderLog(t), a) <==> a.offset < |s.logs[f]|)
  {
    FirstTermRun(c, events);
    FailoverState(c, Reach(c, events), f);
  }
}
