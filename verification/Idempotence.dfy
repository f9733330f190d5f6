/**
  (PID, sequence) deduplication, over every run: requests and acknowledgements lost, repeated
  and reordered, followers fetching, leaders failing over.
  */
module Idempotence {
  import opened Basics
  import opened Replication
  import opened Durability

  // The messages of one producer, in log order.
  function OfProducer(log: seq<Entry>, pid: nat): seq<Entry> {
    if log == [] then []
    else
      var e := log[|log| - 1];
      OfProducer(log[..|log| - 1], pid) + if e.pid == pid then [e] else []
  }

  // The first k messages a producer sends.
  function SendOrder(pid: nat, k: nat): seq<Entry> {
    seq(k, i requires 0 <= i => Entry(pid, i))
  }

  // Every producer's messages form a prefix of what it sent, in send order, each once.
  ghost predicate Sequenced(log: seq<Entry>) {
    forall pid: nat :: OfProducer(log, pid) == SendOrder(pid, |OfProducer(log, pid)|)
  }

  lemma {:induction false} OfProducerPrefix(log: seq<Entry>, k: nat, pid: nat)
    requires k <= |log|
    ensures OfProducer(log[..k], pid) <= OfProducer(log, pid)
    decreases |log|
  {
    if k < |log| {
      OfProducerPrefix(log[..|log| - 1], k, pid);
      assert log[..|log| - 1][..k] == log[..k];
    } else {
      assert log[..k] == log;
    }
  }

  lemma {:induction false} SequencedPrefix(log: seq<Entry>, k: nat)
    requires k <= |log| && Sequenced(log)
    ensures Sequenced(log[..k])
  {
    forall pid: nat
      ensures OfProducer(log[..k], pid) == SendOrder(pid, |OfProducer(log[..k], pid)|)
    {
      OfProducerPrefix(log, k, pid);
      assert OfProducer(log, pid) == SendOrder(pid, |OfProducer(log, pid)|);
    }
  }

  lemma {:induction false} OfProducerAppend(log: seq<Entry>, e: Entry, pid: nat)
    ensures OfProducer(log + [e], pid) == OfProducer(log, pid) + if e.pid == pid then [e] else []
  {
    assert (log + [e])[..|log|] == log;
  }

  lemma {:induction false} SequencedAppend(log: seq<Entry>, e: Entry)
    requires Sequenced(log) && e.number == |OfProducer(log, e.pid)|
    ensures Sequenced(log + [e])
  {
    forall pid: nat
      ensures OfProducer(log + [e], pid) == SendOrder(pid, |OfProducer(log + [e], pid)|)
    {
      OfProducerAppend(log, e, pid);
      assert OfProducer(log, pid) == SendOrder(pid, |OfProducer(log, pid)|);
    }
  }

  lemma {:induction false} InOfProducer(log: seq<Entry>, e: Entry)
    ensures e in log <==> e in OfProducer(log, e.pid)
    decreases |log|
  {
    if log != [] {
      var n := |log| - 1;
      InOfProducer(log[..n], e);
      assert log == log[..n] + [log[n]];
    }
  }

  // A sequenced log holds exactly the numbers below each producer's count.
  lemma {:induction false} Held(log: seq<Entry>, pid: nat, number: nat)
    requires Sequenced(log)
    ensures Entry(pid, number) in log <==> number < |OfProducer(log, pid)|
  {
    var k := |OfProducer(log, pid)|;
    InOfProducer(log, Entry(pid, number));
    assert OfProducer(log, pid) == SendOrder(pid, k);
    if number < k {
      assert SendOrder(pid, k)[number] == Entry(pid, number);
    }
  }

  // No message is stored twice.
  lemma {:induction false} NoDuplicates(log: seq<Entry>, i: nat, j: nat)
    requires Sequenced(log) && i < j < |log|
    ensures log[i] != log[j]
  {
    var e := log[j];
    SequencedPrefix(log, j);
    SequencedPrefix(log, j + 1);
    assert log[..j + 1] == log[..j] + [e];
    OfProducerAppend(log[..j], e, e.pid);
    var k := |OfProducer(log[..j], e.pid)|;
    assert OfProducer(log[..j + 1], e.pid) == SendOrder(e.pid, k + 1);
    assert OfProducer(log[..j + 1], e.pid)[k] == SendOrder(e.pid, k + 1)[k];
    assert e.number == k;
    Held(log[..j], e.pid, e.number);
    assert log[i] == log[..j][i];
  }

  // After an election the new leader expects exactly what its own log lacks.
  lemma {:induction false} RebuildExact(log: seq<Entry>, pid: nat)
    requires Sequenced(log)
    ensures Tally(Rebuild(log), pid) == |OfProducer(log, pid)|
    decreases |log|
  {
    if log != [] {
      var n := |log| - 1;
      var e := log[n];
      SequencedPrefix(log, n);
      RebuildExact(log[..n], pid);
      var k := |OfProducer(log, e.pid)|;
      assert OfProducer(log, e.pid) == SendOrder(e.pid, k);
      assert OfProducer(log, e.pid)[k - 1] == e;
    }
  }

  // ---- the invariant of every idempotent run ----

  ghost predicate WithinSent(s: State, log: seq<Entry>) {
    forall pid: nat :: |OfProducer(log, pid)| <= Tally(s.sent, pid)
  }

  ghost predicate Deduplicated(c: Config, s: State) {
    && |s.logs| == c.brokers
    && (forall r :: 0 <= r < |s.logs| ==> Sequenced(s.logs[r]) && WithinSent(s, s.logs[r]))
    && (Led(s) ==> forall pid: nat :: Tally(s.next, pid) == |OfProducer(LeaderLog(s), pid)|)
  }

  lemma {:induction false} DeliverDeduplicated(c: Config, s: State, pid: nat, number: nat)
    requires c.idempotent && Deduplicated(c, s)
    ensures Deduplicated(c, StepDeliver(c, s, pid, number))
  {
    var t := StepDeliver(c, s, pid, number);
    if t != s {
      var log := LeaderLog(s);
      var e := Entry(pid, number);
      SequencedAppend(log, e);
      forall p: nat
        ensures |OfProducer(log + [e], p)| == Tally(t.next, p) <= Tally(t.sent, p)
      {
        OfProducerAppend(log, e, p);
        assert |OfProducer(log, p)| <= Tally(s.sent, p);
      }
      assert LeaderLog(t) == log + [e];
    }
  }

  lemma {:induction false} FetchDeduplicated(c: Config, s: State, f: nat, upTo: nat)
    requires Deduplicated(c, s)
    ensures Deduplicated(c, StepFetch(s, f, upTo))
  {
    var t := StepFetch(s, f, upTo);
    if t != s {
      var k := |t.logs[f]|;
      SequencedPrefix(LeaderLog(s), k);
      forall p: nat
        ensures |OfProducer(t.logs[f], p)| <= Tally(t.sent, p)
      {
        OfProducerPrefix(LeaderLog(s), k, p);
        assert |OfProducer(LeaderLog(s), p)| <= Tally(s.sent, p);
      }
    }
  }

  lemma {:induction false} ElectDeduplicated(c: Config, s: State, e: Event)
    requires Deduplicated(c, s) && (e.Elect? || e.ElectUnclean?)
    ensures Deduplicated(c, Step(c, s, e))
  {
    var t := Step(c, s, e);
    if t != s {
      forall p: nat
        ensures Tally(t.next, p) == |OfProducer(LeaderLog(t), p)|
      {
        RebuildExact(LeaderLog(t), p);
      }
      forall r | 0 <= r < |t.logs|
        ensures WithinSent(t, t.logs[r])
      {
        assert WithinSent(s, s.logs[r]);
      }
    }
  }

  lemma {:induction false} SendDeduplicated(c: Config, s: State, pid: nat)
    requires Deduplicated(c, s)
    ensures Deduplicated(c, Step(c, s, Send(pid)))
  {
    var t := Step(c, s, Send(pid));
    forall r | 0 <= r < |t.logs|
      ensures WithinSent(t, t.logs[r])
    {
      assert WithinSent(s, s.logs[r]);
    }
  }

  lemma {:induction false} StepDeduplicated(c: Config, s: State, e: Event)
    requires c.idempotent && Deduplicated(c, s)
    ensures Deduplicated(c, Step(c, s, e))
  {
    match e
    case Send(pid) => SendDeduplicated(c, s, pid);
    case Deliver(pid, number) => DeliverDeduplicated(c, s, pid, number);
    case Fetch(f, upTo) => FetchDeduplicated(c, s, f, upTo);
    case Elect(_) => ElectDeduplicated(c, s, e);
    case ElectUnclean(_) => ElectDeduplicated(c, s, e);
    case _ =>
      var t := Step(c, s, e);
      forall r | 0 <= r < |t.logs|
        ensures WithinSent(t, t.logs[r])
      {
        assert WithinSent(s, s.logs[r]);
      }
  }

  // Idempotent runs stay deduplicated under any setting of acks and elections.
  lemma {:induction false} ReachDeduplicated(c: Config, events: seq<Event>)
    requires c.idempotent
    ensures Deduplicated(c, Reach(c, events))
    decreases |events|
  {
    if events == [] {
    } else {
      var n := |events| - 1;
      ReachDeduplicated(c, events[..n]);
      StepDeduplicated(c, Reach(c, events[..n]), events[n]);
    }
  }

  // ---- the verdicts ----

  // What the leader answers, for every request in every idempotent run: a duplicate is exactly what its
  // log already holds, only the producer's next message is appended, and anything beyond is rejected.
  lemma {:induction false} VerdictExactly(c: Config, events: seq<Event>, pid: nat, number: nat)
    requires c.idempotent && Led(Reach(c, events))
    ensures var s := Reach(c, events);
            var verdict, held := Judge(c, s, pid, number), |OfProducer(LeaderLog(s), pid)|;
            && (verdict.Duplicate? <==> Entry(pid, number) in LeaderLog(s))
            && (verdict.Appended? <==> number == held)
            && (verdict.OutOfOrder? <==> number > held)
  {
    var s := Reach(c, events);
    ReachDeduplicated(c, events);
    Held(LeaderLog(s), pid, number);
  }

  // And what becomes of it: a message sent and next in order is stored at the end of the log, whoever
  // leads; a retry of a stored message and a request out of order change nothing at all.
  lemma {:induction false} RequestOutcome(c: Config, events: seq<Event>, pid: nat, number: nat)
    requires c.idempotent && Led(Reach(c, events))
    ensures var s, t := Reach(c, events), Reach(c, events + [Deliver(pid, number)]);
            var held := |OfProducer(LeaderLog(s), pid)|;
            && (number == held && number < Tally(s.sent, pid) ==>
                  Led(t) && LeaderLog(t) == LeaderLog(s) + [Entry(pid, number)] && t.sent == s.sent)
            && (Entry(pid, number) in LeaderLog(s) || number > held ==> t == s)
  {
    assert (events + [Deliver(pid, number)])[..|events|] == events;
    VerdictExactly(c, events, pid, number);
  }

  // ---- the promise ----

  // flush() has returned for this producer: every message was reported, none as an error.
  predicate FlushedWithoutErrors(s: State, pid: nat) {
    forall n: nat :: n < Tally(s.sent, pid) ==> Entry(pid, n) in s.confirmed
  }

  // Idempotence and acks=all together: over any run, the leader's log holds each producer's
  // messages once, in send order, without gaps, and among them every confirmed one; after a
  // clean flush it holds all of them.
  lemma {:induction false} ExactlyOnce(c: Config, events: seq<Event>, pid: nat)
    requires Durable(c) && c.idempotent
    requires Led(Reach(c, events))
    ensures var s := Reach(c, events);
            var log := OfProducer(LeaderLog(s), pid);
            && |log| <= Tally(s.sent, pid)
            && log == SendOrder(pid, |log|)
            && (forall n: nat :: Entry(pid, n) in s.confirmed ==> n < |log|)
            && (FlushedWithoutErrors(s, pid) ==> log == SendOrder(pid, Tally(s.sent, pid)))
  {
    var s := Reach(c, events);
    ReachDeduplicated(c, events);
    ConfirmedOnDisk(c, events);
    forall n: nat | Entry(pid, n) in s.confirmed
      ensures n < |OfProducer(LeaderLog(s), pid)|
    {
      Held(LeaderLog(s), pid, n);
    }
    var sent := Tally(s.sent, pid);
    assert |OfProducer(LeaderLog(s), pid)| <= sent;
    if FlushedWithoutErrors(s, pid) && sent > 0 {
      assert Entry(pid, sent - 1) in s.confirmed;
    }
  }
}
