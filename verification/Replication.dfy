/**
  One partition, replicated on several brokers, as a state machine over its steps.

  Producers number their messages; a request may be lost, repeated or reordered on its way,
  so a `Deliver` step may name any message already sent, at any time and any number of times.
  Acknowledgements travel the same way: `Callback` may pick any acknowledgement ever issued,
  or none. Every step is total: when its guard does not hold, nothing happens. A run is
  therefore any sequence of steps at all.

  Three rules are assumptions of this model, because the source leaves them open:
   - a follower that fetches first drops whatever it does not share with the leader;
   - a stopped broker keeps its log (the simulation stops containers, it does not lose disks);
   - the broker rejects a sequence number that leaves a gap, and after an election rebuilds
     the last number of every producer from the new leader's log.
  */
module Replication {
  import opened Basics

  datatype Acks = LeaderOnly | AllInSync

  // What a follower must show before the leader takes it (back) into the ISR.
  datatype JoinRule = RecentFetch | CaughtUp

  datatype Config = Config(brokers: nat, minIsr: nat, acks: Acks, joinRule: JoinRule,
                           uncleanElection: bool, idempotent: bool)

  // A message is named by its producer and that producer's sequence number.
  datatype Entry = Entry(pid: nat, number: nat)

  datatype Ack = Ack(entry: Entry, offset: nat)

  datatype State = State(
    logs: seq<seq<Entry>>,
    alive: set<nat>,
    isr: set<nat>,
    leader: Option<nat>,
    next: map<nat, nat>,      // the leader's next expected number for every producer
    sent: map<nat, nat>,      // how many messages every producer has sent
    acks: set<Ack>,           // every acknowledgement a leader has issued
    confirmed: set<Entry>,    // messages whose callback reported success
    failed: set<Entry>,       // messages whose callback reported an error
    committed: seq<Entry>     // history: the longest log prefix acknowledged so far
  )

  datatype Event =
    | Send(pid: nat)
    | Deliver(pid: nat, number: nat)
    | Fetch(follower: nat, upTo: nat)
    | Acknowledge(offset: nat)
    | Callback(ack: Ack)
    | Fail(pid: nat, number: nat)
    | Shrink(follower: nat)
    | Expand(follower: nat)
    | Crash(broker: nat)
    | Restart(broker: nat)
    | Elect(broker: nat)
    | ElectUnclean(broker: nat)

  function Brokers(n: nat): set<nat> {
    Range(0, n)
  }

  function Init(c: Config): State {
    State(seq(c.brokers, _ => []), Brokers(c.brokers), Brokers(c.brokers),
          if c.brokers > 0 then Some(0) else None,
          map[], map[], {}, {}, {}, [])
  }

  // Length of the longest prefix two logs share.
  function Shared(a: seq<Entry>, b: seq<Entry>): (k: nat)
    ensures k <= |a| && k <= |b|
    ensures a[..k] == b[..k]
    ensures k < |a| && k < |b| ==> a[k] != b[k]
  {
    if a == [] || b == [] || a[0] != b[0] then 0
    else
      var k := 1 + Shared(a[1..], b[1..]);
      assert a[..k] == [a[0]] + a[1..][..k - 1];
      assert b[..k] == [b[0]] + b[1..][..k - 1];
      k
  }

  lemma {:induction false} SharedIsLongest(a: seq<Entry>, b: seq<Entry>, common: seq<Entry>)
    requires common <= a && common <= b
    ensures |common| <= Shared(a, b)
  {
    if common != [] {
      SharedIsLongest(a[1..], b[1..], common[1..]);
    }
  }

  // Next expected number of every producer, read back from a log.
  function Rebuild(log: seq<Entry>): map<nat, nat> {
    if log == [] then map[]
    else
      var e := log[|log| - 1];
      Rebuild(log[..|log| - 1])[e.pid := e.number + 1]
  }

  datatype Verdict = Appended | Duplicate | OutOfOrder

  // What the leader does with a produce request.
  function Judge(c: Config, s: State, pid: nat, number: nat): Verdict {
    if !c.idempotent then Appended
    else if number == Tally(s.next, pid) then Appended
    else if number < Tally(s.next, pid) then Duplicate
    else OutOfOrder
  }

  // The leader's state is usable only while its id names a broker.
  predicate Led(s: State) {
    s.leader.Some? && s.leader.value < |s.logs|
  }

  function LeaderLog(s: State): seq<Entry>
    requires Led(s)
  {
    s.logs[s.leader.value]
  }

  // Replica r holds the leader's log up to and including the given offset.
  predicate Holds(s: State, r: nat, offset: nat)
    requires Led(s) && offset < |LeaderLog(s)|
  {
    r < |s.logs| && LeaderLog(s)[..offset + 1] <= s.logs[r]
  }

  predicate MayAcknowledge(c: Config, s: State, offset: nat) {
    && Led(s)
    && offset < |LeaderLog(s)|
    && (c.acks.AllInSync? ==>
          |s.isr| >= c.minIsr && forall r :: r in s.isr ==> Holds(s, r, offset))
  }

  function StepDeliver(c: Config, s: State, pid: nat, number: nat): State {
    if Led(s) && number < Tally(s.sent, pid) && Judge(c, s, pid, number).Appended? then
      s.(logs := s.logs[s.leader.value := LeaderLog(s) + [Entry(pid, number)]],
         next := s.next[pid := number + 1])
    else s
  }

  function StepFetch(s: State, f: nat, upTo: nat): State {
    if Led(s) && f != s.leader.value && f in s.alive && f < |s.logs| then
      var shared := Shared(s.logs[f], LeaderLog(s));
      var end := if upTo < shared then shared else if upTo > |LeaderLog(s)| then |LeaderLog(s)| else upTo;
      s.(logs := s.logs[f := LeaderLog(s)[..end]])
    else s
  }

  function StepAcknowledge(c: Config, s: State, offset: nat): State {
    if MayAcknowledge(c, s, offset) then
      s.(acks := s.acks + {Ack(LeaderLog(s)[offset], offset)},
         committed := if |s.committed| <= offset then LeaderLog(s)[..offset + 1] else s.committed)
    else s
  }

  function StepExpand(c: Config, s: State, f: nat): State {
    if && Led(s) && f in s.alive && f < |s.logs|
       && (c.joinRule.CaughtUp? ==> s.logs[f] == LeaderLog(s))
    then s.(isr := s.isr + {f})
    else s
  }

  function StepElect(s: State, r: nat): State {
    if s.leader.None? && r in s.isr && r in s.alive && r < |s.logs| then
      s.(leader := Some(r), isr := s.isr * s.alive, next := Rebuild(s.logs[r]))
    else s
  }

  function StepElectUnclean(c: Config, s: State, r: nat): State {
    if c.uncleanElection && s.leader.None? && s.isr * s.alive == {} && r in s.alive && r < |s.logs| then
      s.(leader := Some(r), isr := {r}, next := Rebuild(s.logs[r]))
    else s
  }

  function Step(c: Config, s: State, e: Event): State {
    match e
    case Send(pid) => s.(sent := s.sent[pid := Tally(s.sent, pid) + 1])
    case Deliver(pid, number) => StepDeliver(c, s, pid, number)
    case Fetch(f, upTo) => StepFetch(s, f, upTo)
    case Acknowledge(offset) => StepAcknowledge(c, s, offset)
    case Callback(ack) =>
      if ack in s.acks && ack.entry !in s.failed then s.(confirmed := s.confirmed + {ack.entry}) else s
    case Fail(pid, number) =>
      if number < Tally(s.sent, pid) && Entry(pid, number) !in s.confirmed
      then s.(failed := s.failed + {Entry(pid, number)}) else s
    case Shrink(f) =>
      if Led(s) && f != s.leader.value then s.(isr := s.isr - {f}) else s
    case Expand(f) => StepExpand(c, s, f)
    case Crash(b) =>
      s.(alive := s.alive - {b}, leader := if s.leader == Some(b) then None else s.leader)
    case Restart(b) =>
      if b < c.brokers then s.(alive := s.alive + {b}) else s
    case Elect(b) => StepElect(s, b)
    case ElectUnclean(b) => StepElectUnclean(c, s, b)
  }

  function Run(c: Config, s: State, events: seq<Event>): State {
    if events == [] then s
    else Step(c, Run(c, s, events[..|events| - 1]), events[|events| - 1])
  }

  function Reach(c: Config, events: seq<Event>): State {
    Run(c, Init(c), events)
  }

  lemma {:induction false} RunAppend(c: Config, s: State, first: seq<Event>, rest: seq<Event>)
    ensures Run(c, s, first + rest) == Run(c, Run(c, s, first), rest)
    decreases |rest|
  {
    if rest == [] {
      assert first + rest == first;
    } else {
      var n := |rest| - 1;
      assert (first + rest)[..|first + rest| - 1] == first + rest[..n];
      RunAppend(c, s, first, rest[..n]);
    }
  }
}
