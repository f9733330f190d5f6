/**
  The brokers' side as a program: one object whose methods change logs, ISR and leader in place.
  Each method is proved against the step of the state machine it carries out.
  */
module Cluster {
  import opened Basics
  import opened Replication
  import opened Durability
  import opened Idempotence
  import opened Accounting

  method SharedPrefix(a: seq<Entry>, b: seq<Entry>) returns (k: nat)
    ensures k == Shared(a, b)
  {
    k := 0;
    while k < |a| && k < |b| && a[k] == b[k]
      invariant k <= |a| && k <= |b|
      invariant a[..k] == b[..k]
    {
      k := k + 1;
    }
    SharedIsLongest(a, b, a[..k]);
    ghost var n := Shared(a, b);
    assert forall i :: 0 <= i < n ==> a[i] == a[..n][i] == b[i];
  }

  // A new leader reads the last number of every producer back from its log.
  method ReadNumbers(log: seq<Entry>) returns (next: map<nat, nat>)
    ensures next == Rebuild(log)
  {
    next := map[];
    for i := 0 to |log|
      invariant next == Rebuild(log[..i])
    {
      assert log[..i + 1][..i] == log[..i];
      next := next[log[i].pid := log[i].number + 1];
    }
    assert log[..|log|] == log;
  }

  class Partition {
    const config: Config
    var logs: seq<seq<Entry>>
    var alive: set<nat>
    var isr: set<nat>
    var leader: Option<nat>
    var next: map<nat, nat>
    var sent: map<nat, nat>
    var acks: set<Ack>
    var confirmed: set<Entry>
    var failed: set<Entry>
    ghost var committed: seq<Entry>

    ghost function View(): State
      reads this
    {
      State(logs, alive, isr, leader, next, sent, acks, confirmed, failed, committed)
    }

    constructor (c: Config)
      ensures config == c && View() == Init(c)
    {
      config := c;
      logs := seq(c.brokers, _ => []);
      alive, isr := Brokers(c.brokers), Brokers(c.brokers);
      leader := if c.brokers > 0 then Some(0) else None;
      next, sent, acks, confirmed, failed := map[], map[], {}, {}, {};
      committed := [];
    }

    method Produce(pid: nat, number: nat) returns (verdict: Verdict)
      modifies this
      ensures verdict == Judge(config, old(View()), pid, number)
      ensures View() == Step(config, old(View()), Deliver(pid, number))
    {
      var expected := if pid in next then next[pid] else 0;
      if !config.idempotent || number == expected {
        verdict := Appended;
      } else if number < expected {
        verdict := Duplicate;
      } else {
        verdict := OutOfOrder;
      }
      var wasSent := pid in sent && number < sent[pid];
      if verdict.Appended? && wasSent && leader.Some? && leader.value < |logs| {
        var l := leader.value;
        logs := logs[l := logs[l] + [Entry(pid, number)]];
        next := next[pid := number + 1];
      }
    }

    // The follower drops what it does not share with the leader, then copies entry by entry.
    method FetchLoop(f: nat, upTo: nat)
      modifies this
      ensures View() == Step(config, old(View()), Fetch(f, upTo))
    {
      if leader.None? || leader.value >= |logs| || f == leader.value || f !in alive || f >= |logs| {
        return;
      }
      var source := logs[leader.value];
      var k := SharedPrefix(logs[f], source);
      var log := source[..k];
      while |log| < upTo && |log| < |source|
        invariant k <= |log| <= |source|
        invariant |log| == k || |log| <= upTo
        invariant log == source[..|log|]
        decreases |source| - |log|
      {
        log := log + [source[|log|]];
      }
      logs := logs[f := log];
    }

    // Waits for the ISR: acknowledges only once every member holds the entry and enough are left.
    method TryAcknowledge(offset: nat) returns (ok: bool)
      modifies this
      ensures ok == MayAcknowledge(config, old(View()), offset)
      ensures View() == Step(config, old(View()), Acknowledge(offset))
    {
      if leader.None? || leader.value >= |logs| || offset >= |logs[leader.value]| {
        return false;
      }
      var log := logs[leader.value];
      ok := true;
      if config.acks.AllInSync? {
        ok := |isr| >= config.minIsr;
        var left := isr;
        while left != {}
          invariant left <= isr
          invariant ok <==> |isr| >= config.minIsr && forall r :: r in isr - left ==> Holds(View(), r, offset)
          invariant View() == old(View())
          decreases left
        {
          var r :| r in left;
          var holds := r < |logs| && log[..offset + 1] <= logs[r];
          assert holds == Holds(View(), r, offset);
          assert isr - (left - {r}) == (isr - left) + {r};
          ok := ok && holds;
          left := left - {r};
        }
        assert isr - {} == isr;
      }
      if ok {
        acks := acks + {Ack(log[offset], offset)};
        committed := if |committed| <= offset then log[..offset + 1] else committed;
      }
    }

    method ElectLeader(r: nat, unclean: bool) returns (ok: bool)
      modifies this
      ensures View() == Step(config, old(View()), if unclean then ElectUnclean(r) else Elect(r))
      ensures ok ==> leader == Some(r) && r in alive && r in isr
      ensures !ok ==> View() == old(View())
    {
      ok := false;
      if leader.Some? || r !in alive || r >= |logs| {
        return;
      }
      if unclean {
        if !config.uncleanElection || isr * alive != {} { return; }
        isr := {r};
      } else {
        if r !in isr { return; }
        isr := isr * alive;
      }
      leader := Some(r);
      next := ReadNumbers(logs[r]);
      ok := true;
    }

    // The producer's side: sending, and its callbacks with a success or an error.
    method ClientStep(e: Event)
      requires e.Send? || e.Callback? || e.Fail?
      modifies this`sent, this`confirmed, this`failed
      ensures View() == Step(config, old(View()), e)
    {
      match e
      case Send(pid) =>
        sent := sent[pid := if pid in sent then sent[pid] + 1 else 1];
      case Callback(ack) =>
        if ack in acks && ack.entry !in failed { confirmed := confirmed + {ack.entry}; }
      case Fail(pid, number) =>
        if pid in sent && number < sent[pid] && Entry(pid, number) !in confirmed {
          failed := failed + {Entry(pid, number)};
        }
    }

    // Brokers leaving and returning, to the ISR or to the cluster.
    method MembershipStep(e: Event)
      requires e.Shrink? || e.Expand? || e.Crash? || e.Restart?
      modifies this`isr, this`alive, this`leader
      ensures View() == Step(config, old(View()), e)
    {
      var led := leader.Some? && leader.value < |logs|;
      match e
      case Shrink(f) =>
        if led && f != leader.value { isr := isr - {f}; }
      case Expand(f) =>
        if led && f in alive && f < |logs| && (config.joinRule.RecentFetch? || logs[f] == logs[leader.value]) {
          isr := isr + {f};
        }
      case Crash(b) =>
        alive := alive - {b};
        if leader == Some(b) { leader := None; }
      case Restart(b) =>
        if b < config.brokers { alive := alive + {b}; }
    }

    method Apply(e: Event)
      modifies this
      ensures View() == Step(config, old(View()), e)
    {
      match e
      case Deliver(pid, number) => var _ := Produce(pid, number);
      case Fetch(f, upTo) => FetchLoop(f, upTo);
      case Acknowledge(offset) => var _ := TryAcknowledge(offset);
      case Elect(r) => var _ := ElectLeader(r, false);
      case ElectUnclean(r) => var _ := ElectLeader(r, true);
      case Send(_) => ClientStep(e);
      case Callback(_) => ClientStep(e);
      case Fail(_, _) => ClientStep(e);
      case _ => MembershipStep(e);
    }
  }

  // A fresh partition and any schedule of steps.
  method RunAll(c: Config, events: seq<Event>) returns (p: Partition)
    ensures fresh(p) && p.config == c && p.View() == Reach(c, events)
  {
    p := new Partition(c);
    for i := 0 to |events|
      invariant fresh(p) && p.config == c
      invariant p.View() == Reach(c, events[..i])
    {
      assert events[..i + 1][..i] == events[..i];
      p.Apply(events[i]);
    }
    assert events[..|events|] == events;
  }

  // One round of the acks simulation: the number of confirmed messages and the end of the
  // surviving leader's log, if there is a leader.
  method RunRound(c: Config, events: seq<Event>) returns (confirmed: nat, onDisk: Option<nat>)
    ensures var s := Reach(c, events);
            && confirmed == |s.confirmed|
            && onDisk == (if Led(s) then Some(|LeaderLog(s)|) else None)
            && (Durable(c) && onDisk.Some? ==> Lost(s) == {} && confirmed <= onDisk.value)
            && (DeliveredOnce(events) && onDisk.Some? ==>
                  confirmed - onDisk.value == |Lost(s)| - |Unconfirmed(s)|)
  {
    var p := RunAll(c, events);
    confirmed := |p.confirmed|;
    onDisk := if p.leader.Some? && p.leader.value < |p.logs| then Some(|p.logs[p.leader.value]|) else None;
    if onDisk.Some? {
      if Durable(c) { GapUnderAcksAll(c, events); }
      if DeliveredOnce(events) { GapExact(c, events); }
    }
  }

  // One round of the idempotence simulation, with one producer: the duplicates it reports, that is
  // the end of the leader's log minus the number of messages sent.
  method RunRetryRound(c: Config, events: seq<Event>, pid: nat) returns (duplicates: Option<int>)
    requires OnlyProducer(Reach(c, events), pid)
    ensures duplicates.Some? <==> Led(Reach(c, events))
    ensures duplicates.Some? ==>
              var s := Reach(c, events);
              var never := Sent(pid, Tally(s.sent, pid)) - Stored(LeaderLog(s));
              && duplicates.value == Surplus(LeaderLog(s)) - |never|
              && (Durable(c) && c.idempotent ==>
                    duplicates.value <= 0 && (FlushedWithoutErrors(s, pid) ==> duplicates.value == 0))
  {
    var p := RunAll(c, events);
    duplicates := None;
    if p.leader.Some? && p.leader.value < |p.logs| {
      duplicates := Some(|p.logs[p.leader.value]| - Tally(p.sent, pid));
      DuplicatesExact(c, events, pid);
      if Durable(c) && c.idempotent { IdempotentCount(c, events, pid); }
    }
  }
}
