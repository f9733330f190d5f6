// The consuming loops of the log start simulation, run against the state machine of the group.
module GroupConsumer {
  import opened Basics
  import opened SegmentedLog
  import opened Retention
  import opened ConsumerResume

  // What happens around one call of poll: it may time out, it may be answered, and the broker may
  // append or delete in between.
  datatype Tick = Timeout | Answer | Meanwhile(event: SegmentedLog.Event)

  datatype Outcome = Halted | Empty | Resumed(offsets: seq<nat>)

  ghost predicate Ascending(offsets: seq<nat>) {
    forall i, j :: 0 <= i < j < |offsets| ==> offsets[i] < offsets[j]
  }

  // The step of the state machine a tick stands for; a timeout is none.
  function ActionsOfTick(t: Tick): seq<Action> {
    match t
    case Timeout => []
    case Meanwhile(e) => [Broker(e)]
    case Answer => [Poll]
  }

  function TickStep(limits: Limits, policy: Reset, w: World, t: Tick): World {
    match t
    case Timeout => w
    case Meanwhile(e) => Act(limits, policy, w, Broker(e))
    case Answer => Act(limits, policy, w, Poll)
  }

  // The message, if any, that a poll hands over.
  function Offer(w: World): Option<nat> {
    var p := w.group.position;
    if p.Some? && Start(w.log) <= p.value < End(w.log) then p else None
  }

  // The polling loop as a function: the world it leaves and the offsets it gathered, starting with
  // some offsets already in hand.
  function Collected(limits: Limits, policy: Reset, w: World, offsets: seq<nat>, count: nat, ticks: seq<Tick>)
    : (World, seq<nat>)
    decreases |ticks|
  {
    if |offsets| >= count || ticks == [] then (w, offsets)
    else
      var more := if ticks[0].Answer? && Offer(w).Some? then offsets + [Offer(w).value] else offsets;
      Collected(limits, policy, TickStep(limits, policy, w, ticks[0]), more, count, ticks[1..])
  }

  class Consumer {
    const limits: Limits
    const policy: Reset
    var world: World   // the partition's log and the group's own state

    constructor (limits: Limits, policy: Reset, world: World)
      ensures this.limits == limits && this.policy == policy && this.world == world
    {
      this.limits, this.policy, this.world := limits, policy, world;
    }

    method ResetPosition(from: nat)
      modifies this`world
      ensures world == old(world).(group := ResetFrom(policy, old(world).log, old(world).group, from))
    {
      var log, g := world.log, world.group;
      match policy {
        case Earliest =>
          g := g.(position := Some(Start(log)), skipped := g.skipped + Range(from, Start(log)));
        case Latest =>
          g := g.(position := Some(End(log)), skipped := g.skipped + Range(from, End(log)));
        case Error =>
          g := g.(position := None, halted := true);
      }
      world := world.(group := g);
    }

    method Subscribe()
      modifies this`world
      ensures world == Act(limits, policy, old(world), Join)
    {
      var g := world.group;
      if g.position.None? {
        world := world.(group := g.(position := g.committed, halted := false));
        if g.committed.None? {
          ResetPosition(0);
        }
      }
    }

    // One answered poll: at most one message.
    method PollOnce() returns (offset: Option<nat>)
      modifies this`world
      ensures world == Act(limits, policy, old(world), Poll)
      ensures offset == Offer(old(world))
    {
      offset := None;
      var g := world.group;
      if g.position.Some? {
        var p := g.position.value;
        if p < Start(world.log) {
          ResetPosition(p);
        } else if p < End(world.log) {
          offset := Some(p);
          world := world.(group := g.(position := Some(p + 1), delivered := g.delivered + {p}));
        }
      }
    }

    // Consume up to count messages; commit only if all of them arrived before the deadline (the
    // end of the ticks), then leave.
    method ConsumeAndCommit(count: nat, ticks: seq<Tick>) returns (offsets: seq<nat>)
      modifies this`world
      ensures var joined := Act(limits, policy, old(world), Join);
              var (w, all) := Collected(limits, policy, joined, [], count, ticks);
              && offsets == all
              && world == Finished(limits, policy, w, 0 < |all| == count)
    {
      Subscribe();
      offsets := [];
      ghost var result := Collected(limits, policy, world, [], count, ticks);
      var committing := false;
      var i := 0;
      while |offsets| < count && i < |ticks|
        invariant 0 <= i <= |ticks| && |offsets| <= count
        invariant Collected(limits, policy, world, offsets, count, ticks[i..]) == result
        decreases |ticks| - i
      {
        var offset: Option<nat> := None;
        match ticks[i] {
          case Timeout =>
          case Meanwhile(e) => world := world.(log := Step(limits, world.log, e));
          case Answer => offset := PollOnce();
        }
        assert ticks[i..][1..] == ticks[i + 1..];
        i := i + 1;
        if offset.Some? {
          offsets := offsets + [offset.value];
        }
      }
      if 0 < |offsets| && |offsets| == count && world.group.position.Some? {
        world := world.(group := world.group.(committed := world.group.position));
      }
      world := world.(group := world.group.(position := None));
    }
  }

  // Commit if asked to, then leave.
  function Finished(limits: Limits, policy: Reset, w: World, commit: bool): World {
    Act(limits, policy,
                        if commit then Act(limits, policy, w, Commit) else w, Leave)
  }

  // ---- what the loop guarantees ----

  function Elements(offsets: seq<nat>): set<nat> {
    set o | o in offsets
  }

  // What a polling loop has gathered since it began; the position stays beyond it.
  ghost predicate Gathered(start: Group, g: Group, offsets: seq<nat>) {
    && Ascending(offsets)
    && g.committed == start.committed
    && g.delivered == start.delivered + Elements(offsets)
    && (offsets != [] && g.position.Some? ==> offsets[|offsets| - 1] < g.position.value)
  }

  lemma {:induction false} AnswerGathers(policy: Reset, start: Group, l: Log, g: Group, offsets: seq<nat>)
    requires Start(l) <= End(l) && Gathered(start, g, offsets)
    ensures var offer := Offer(World(l, g));
            var h := PollStep(policy, l, g);
            if offer.Some? then Gathered(start, h, offsets + [offer.value]) && h.position == Some(offer.value + 1)
            else Gathered(start, h, offsets)
  {
    var offer := Offer(World(l, g));
    if offer.Some? {
      assert Elements(offsets + [offer.value]) == Elements(offsets) + {offer.value};
    }
  }

  lemma {:induction false} TickGathers(limits: Limits, policy: Reset, start: Group, w: World, offsets: seq<nat>,
                                       t: Tick, written: seq<Record>) returns (after: seq<Record>)
    requires Represents(w.log, written) && Gathered(start, w.group, offsets)
    ensures var w' := TickStep(limits, policy, w, t);
            && Represents(w'.log, after)
            && (if t.Answer? && Offer(w).Some?
                then Gathered(start, w'.group, offsets + [Offer(w).value])
                     && w'.group.position == Some(Offer(w).value + 1)
                else Gathered(start, w'.group, offsets))
  {
    after := written;
    match t
    case Timeout =>
    case Meanwhile(e) =>
      StepRepresents(limits, w.log, e, written);
      after := written + if e.Append? then [Record(e.payload, e.bytes, w.log.clock)] else [];
    case Answer => AnswerGathers(policy, start, w.log, w.group, offsets);
  }

  lemma {:induction false} CollectedGathers(limits: Limits, policy: Reset, start: Group, w: World, offsets: seq<nat>,
                                            count: nat, ticks: seq<Tick>, written: seq<Record>)
    requires Represents(w.log, written) && Gathered(start, w.group, offsets)
    requires |offsets| < count || (offsets != [] ==> w.group.position == Some(offsets[|offsets| - 1] + 1))
    requires |offsets| <= count
    ensures var (w', all) := Collected(limits, policy, w, offsets, count, ticks);
            && |all| <= count && Gathered(start, w'.group, all)
            && (0 < |all| == count ==> w'.group.position == Some(all[count - 1] + 1))
    decreases |ticks|
  {
    if |offsets| < count && ticks != [] {
      var after := TickGathers(limits, policy, start, w, offsets, ticks[0], written);
      var more := if ticks[0].Answer? && Offer(w).Some? then offsets + [Offer(w).value] else offsets;
      CollectedGathers(limits, policy, start, TickStep(limits, policy, w, ticks[0]), more, count, ticks[1..], after);
    }
  }

  // The loop stays inside the state machine: it is some run of broker steps and polls.
  lemma {:induction false} CollectedIsRun(limits: Limits, policy: Reset, w: World, offsets: seq<nat>, count: nat,
                                          ticks: seq<Tick>) returns (actions: seq<Action>)
    ensures Collected(limits, policy, w, offsets, count, ticks).0 == Run(limits, policy, w, actions)
    decreases |ticks|
  {
    if |offsets| >= count || ticks == [] {
      actions := [];
    } else {
      var more := if ticks[0].Answer? && Offer(w).Some? then offsets + [Offer(w).value] else offsets;
      var w1 := TickStep(limits, policy, w, ticks[0]);
      var rest := CollectedIsRun(limits, policy, w1, more, count, ticks[1..]);
      actions := ActionsOfTick(ticks[0]) + rest;
      TickIsRun(limits, policy, w, ticks[0]);
      RunAppend(limits, policy, w, ActionsOfTick(ticks[0]), rest);
    }
  }

  lemma {:induction false} TickIsRun(limits: Limits, policy: Reset, w: World, t: Tick)
    ensures Run(limits, policy, w, ActionsOfTick(t)) == TickStep(limits, policy, w, t)
  {
    if !t.Timeout? {
      assert ActionsOfTick(t)[..0] == [];
    }
  }

  // consume_and_commit over any schedule: the offsets it returns ascend and are exactly what was
  // handed over meanwhile, and the committed offset moves only when all of count arrived, to one
  // past the last of them.
  lemma {:induction false} CommitsWhatItConsumed(limits: Limits, policy: Reset, w: World, count: nat,
                                                 ticks: seq<Tick>, written: seq<Record>)
    requires Represents(w.log, written) && w.group.position == None
    ensures var joined := Act(limits, policy, w, Join);
            var (w', all) := Collected(limits, policy, joined, [], count, ticks);
            var g := Finished(limits, policy, w', 0 < |all| == count).group;
            && |all| <= count && Ascending(all)
            && g.position == None
            && g.delivered == w.group.delivered + Elements(all)
            && g.committed == if 0 < |all| == count then Some(all[count - 1] + 1) else w.group.committed
  {
    var joined := Act(limits, policy, w, Join);
    CollectedGathers(limits, policy, w.group, joined, [], count, ticks, written);
  }

  // ---- and that it gets them ----

  function Answers(ticks: seq<Tick>): nat {
    if ticks == [] then 0 else Answers(ticks[1..]) + if ticks[0].Answer? then 1 else 0
  }

  // The log once the broker's part of a schedule is done.
  function LogAfter(limits: Limits, l: Log, ticks: seq<Tick>): Log
    decreases |ticks|
  {
    if ticks == [] then l
    else LogAfter(limits, if ticks[0].Meanwhile? then Step(limits, l, ticks[0].event) else l, ticks[1..])
  }

  function Least(a: nat, b: nat): nat {
    if a <= b then a else b
  }

  ghost predicate Consecutive(offsets: seq<nat>, from: nat) {
    forall i :: 0 <= i < |offsets| ==> offsets[i] == from + i
  }

  lemma {:induction false} LogAfterOnlyMoves(limits: Limits, l: Log, ticks: seq<Tick>, written: seq<Record>)
    requires Represents(l, written)
    ensures Start(l) <= Start(LogAfter(limits, l, ticks))
    decreases |ticks|
  {
    if ticks != [] {
      if ticks[0].Meanwhile? {
        var e := ticks[0].event;
        StepRepresents(limits, l, e, written);
        LogAfterOnlyMoves(limits, Step(limits, l, e), ticks[1..],
                          written + if e.Append? then [Record(e.payload, e.bytes, l.clock)] else []);
      } else {
        LogAfterOnlyMoves(limits, l, ticks[1..], written);
      }
    }
  }

  // One tick from a valid position: an answer hands over the message there, nothing else does.
  lemma {:induction false} TickAdvances(limits: Limits, policy: Reset, w: World, t: Tick, written: seq<Record>, p: nat)
    returns (after: seq<Record>)
    requires Represents(w.log, written) && w.group.position == Some(p) && Start(w.log) <= p < End(w.log)
    ensures var w' := TickStep(limits, policy, w, t);
            && Represents(w'.log, after) && End(w.log) <= End(w'.log)
            && w'.log == (if t.Meanwhile? then Step(limits, w.log, t.event) else w.log)
            && w'.group.position == Some(if t.Answer? then p + 1 else p)
    ensures Offer(w) == Some(p)
  {
    after := written;
    if t.Meanwhile? {
      StepRepresents(limits, w.log, t.event, written);
      after := written + if t.event.Append? then [Record(t.event.payload, t.event.bytes, w.log.clock)] else [];
    }
  }

  // From a position that retention does not overtake, with enough messages there: over any schedule of
  // timeouts, answers and broker steps the loop gathers the next messages one by one, as many as it was
  // asked for or as were answered.
  lemma {:induction false} GathersConsecutively(limits: Limits, policy: Reset, w: World, offsets: seq<nat>, count: nat,
                                                ticks: seq<Tick>, written: seq<Record>, p: nat)
    requires Represents(w.log, written) && w.group.position == Some(p) && |offsets| <= count
    requires Start(LogAfter(limits, w.log, ticks)) <= p && p + (count - |offsets|) <= End(w.log)
    ensures var (w', all) := Collected(limits, policy, w, offsets, count, ticks);
            var more := Least(count - |offsets|, Answers(ticks));
            && |all| == |offsets| + more && all[..|offsets|] == offsets
            && Consecutive(all[|offsets|..], p)
            && w'.group.position == Some(p + more)
    decreases |ticks|
  {
    if |offsets| < count && ticks != [] {
      LogAfterOnlyMoves(limits, w.log, ticks, written);
      var after := TickAdvances(limits, policy, w, ticks[0], written, p);
      var w1 := TickStep(limits, policy, w, ticks[0]);
      if ticks[0].Answer? {
        GathersConsecutively(limits, policy, w1, offsets + [p], count, ticks[1..], after, p + 1);
        var all := Collected(limits, policy, w, offsets, count, ticks).1;
        FirstThenRest(all, offsets, p);
      } else {
        GathersConsecutively(limits, policy, w1, offsets, count, ticks[1..], after, p);
      }
    }
  }

  lemma {:induction false} FirstThenRest(all: seq<nat>, offsets: seq<nat>, p: nat)
    requires |all| > |offsets| && all[..|offsets| + 1] == offsets + [p]
    requires Consecutive(all[|offsets| + 1..], p + 1)
    ensures all[..|offsets|] == offsets && Consecutive(all[|offsets|..], p)
  {
    var n := |offsets|;
    assert all[..n] == all[..n + 1][..n];
    assert all[n] == all[..n + 1][n];
    forall i | 0 <= i < |all[n..]|
      ensures all[n..][i] == p + i
    {
      if i > 0 { assert all[n..][i] == all[n + 1..][i - 1]; }
    }
  }

  lemma {:induction false} JoinsAtResumePoint(limits: Limits, policy: Reset, w: World, p: nat)
    requires w.group.position == None && ResumePoint(policy, w.log, w.group.committed) == Some(p)
    requires w.group.committed.Some? ==> Start(w.log) <= w.group.committed.value
    ensures var joined := Act(limits, policy, w, Join);
            joined.log == w.log && joined.group.position == Some(p)
  {
  }

  // consume_and_commit does its job: started where a group resumes, with count messages there that
  // retention leaves alone meanwhile, it returns exactly the next messages, and once count polls were
  // answered it has all of them and has committed one past the last.
  lemma {:induction false} ConsumesAndCommits(limits: Limits, policy: Reset, w: World, count: nat, ticks: seq<Tick>,
                                              written: seq<Record>, p: nat)
    requires Represents(w.log, written) && w.group.position == None && count > 0
    requires ResumePoint(policy, w.log, w.group.committed) == Some(p)
    requires w.group.committed.Some? ==> Start(w.log) <= w.group.committed.value
    requires Start(LogAfter(limits, w.log, ticks)) <= p && p + count <= End(w.log)
    ensures var joined := Act(limits, policy, w, Join);
            var (w', all) := Collected(limits, policy, joined, [], count, ticks);
            var g := Finished(limits, policy, w', 0 < |all| == count).group;
            && |all| == Least(count, Answers(ticks)) && Consecutive(all, p)
            && g.committed == if Answers(ticks) >= count then Some(p + count) else w.group.committed
  {
    var joined := Act(limits, policy, w, Join);
    JoinsAtResumePoint(limits, policy, w, p);
    GathersConsecutively(limits, policy, joined, [], count, ticks, written, p);
    CommitsWhatItConsumed(limits, policy, w, count, ticks, written);
    var all := Collected(limits, policy, joined, [], count, ticks).1;
    assert all[0..] == all;
  }

  // ---- resuming after retention ----

  // Halfway through reading from the resume point: `offsets` were read, consecutively from there.
  // Before its first answered poll a group may still stand at a deleted committed offset.
  ghost predicate Resuming(policy: Reset, l: Log, committed: Option<nat>, g: Group, offsets: seq<nat>) {
    var from := ResumePoint(policy, l, committed);
    && (g.halted ==> from == None)
    && (from == None ==> offsets == [])
    && (from.Some? ==> Consecutive(offsets, from.value))
    && (offsets != [] ==> from.value + |offsets| <= End(l))
    && (if Settled(policy, l, committed, g, offsets) then g.skipped == ResumeSkips(policy, l, committed)
        else offsets == [] && AtDeleted(l, committed, g) && g.skipped == {})
  }

  predicate Settled(policy: Reset, l: Log, committed: Option<nat>, g: Group, offsets: seq<nat>) {
    match ResumePoint(policy, l, committed)
    case None => g.halted && g.position == None
    case Some(from) => g.position == Some(from + |offsets|)
  }

  predicate AtDeleted(l: Log, committed: Option<nat>, g: Group) {
    committed.Some? && committed.value < Start(l) && g.position == committed && !g.halted
  }

  lemma {:induction false} PollResuming(policy: Reset, l: Log, committed: Option<nat>, g: Group, offsets: seq<nat>)
    requires Start(l) <= End(l)
    requires Resuming(policy, l, committed, g, offsets)
    ensures var h := PollStep(policy, l, g);
            var p := g.position;
            var more := if p.Some? && Start(l) <= p.value < End(l) then offsets + [p.value] else offsets;
            && Resuming(policy, l, committed, h, more)
            && Settled(policy, l, committed, h, more)
            && (Settled(policy, l, committed, g, offsets) && p.Some? && p.value < End(l) ==> more != [])
  {
  }

  lemma {:induction false} JoinResuming(policy: Reset, l: Log, committed: Option<nat>)
    ensures Resuming(policy, l, committed, JoinStep(policy, l, NEW_GROUP.(committed := committed)), [])
  {
  }

  // The loop of the second half as a function: at most three messages, on a log that stays as it is; a
  // poll that brings nothing ends it once something was read.
  function Tried(policy: Reset, l: Log, g: Group, offsets: seq<nat>, answered: seq<bool>): (Group, seq<nat>)
    decreases |answered|
  {
    if answered == [] || g.halted || |offsets| >= 3 then (g, offsets)
    else
      var offer := if answered[0] then Offer(World(l, g)) else None;
      var h := if answered[0] then PollStep(policy, l, g) else g;
      if offer.Some? then Tried(policy, l, h, offsets + [offer.value], answered[1..])
      else if offsets != [] then (h, offsets)
      else Tried(policy, l, h, offsets, answered[1..])
  }

  // How many polls are answered before the first timeout.
  function Prompt(answered: seq<bool>): nat {
    if answered == [] || !answered[0] then 0 else 1 + Prompt(answered[1..])
  }

  // What the polls still to come can bring: the first one may only find the committed offset gone.
  function Useful(settled: bool, prompt: nat): nat {
    if settled || prompt == 0 then prompt else prompt - 1
  }

  // From a valid position on: consecutive messages, at most three, and as many as were answered as far as
  // there are any.
  lemma {:induction false} TriedFrom(policy: Reset, l: Log, g: Group, offsets: seq<nat>, answered: seq<bool>, from: nat)
    requires Start(l) <= from && g.position == Some(from + |offsets|) && !g.halted
    requires |offsets| <= 3 && Consecutive(offsets, from) && (offsets != [] ==> from + |offsets| <= End(l))
    ensures var (h, all) := Tried(policy, l, g, offsets, answered);
            && h.position == Some(from + |all|) && !h.halted && h.skipped == g.skipped
            && |all| <= 3 && Consecutive(all, from) && (all != [] ==> from + |all| <= End(l))
            && (from <= End(l) ==> |all| >= Least(Least(3, End(l) - from), |offsets| + Prompt(answered)))
    decreases |answered|
  {
    if answered != [] && |offsets| < 3 {
      if answered[0] && from + |offsets| < End(l) {
        TriedFrom(policy, l, PollStep(policy, l, g), offsets + [from + |offsets|], answered[1..], from);
      } else if offsets == [] {
        TriedFrom(policy, l, g, offsets, answered[1..], from);
      }
    }
  }

  // From where the group stands after joining, which may be a committed offset that is gone.
  lemma {:induction false} TriedResumes(policy: Reset, l: Log, committed: Option<nat>, g: Group, answered: seq<bool>)
    requires Start(l) <= End(l) && Resuming(policy, l, committed, g, [])
    ensures var (h, all) := Tried(policy, l, g, [], answered);
            var from, settled := ResumePoint(policy, l, committed), Settled(policy, l, committed, g, []);
            && |all| <= 3 && Resuming(policy, l, committed, h, all)
            && (settled || Prompt(answered) > 0 ==> Settled(policy, l, committed, h, all))
            && (from.Some? && from.value <= End(l) ==>
                  |all| >= Least(Least(3, End(l) - from.value), Useful(settled, Prompt(answered))))
    decreases |answered|
  {
    var from := ResumePoint(policy, l, committed);
    if Settled(policy, l, committed, g, []) {
      if from.Some? { TriedFrom(policy, l, g, [], answered, from.value); }
    } else if answered != [] {
      if answered[0] {
        PollResuming(policy, l, committed, g, []);
        var h := PollStep(policy, l, g);
        if from.Some? { TriedFrom(policy, l, h, [], answered[1..], from.value); }
      } else {
        TriedResumes(policy, l, committed, g, answered[1..]);
      }
    }
  }

  // Read at most three messages after retention ran. Answered polls deliver consecutive offsets from the
  // resume point, all there are up to three if four polls are answered; a group that has no resume point
  // halts. The message printed on success, that all offsets below the first one read were skipped, is
  // right if and only if nothing, or offset zero, was committed.
  method TryConsumeWithReset(limits: Limits, policy: Reset, log: Log, committed: Option<nat>, answered: seq<bool>)
    returns (outcome: Outcome, skipped: set<nat>)
    requires Start(log) <= End(log)
    ensures outcome.Halted? ==> ResumePoint(policy, log, committed) == None
    ensures ResumePoint(policy, log, committed) == None ==> outcome.Halted? || outcome.Empty?
    ensures Prompt(answered) >= 2 ==>
              var from := ResumePoint(policy, log, committed);
              (from == None ==> outcome.Halted?) && (from.Some? && from.value < End(log) ==> outcome.Resumed?)
    ensures outcome.Resumed? ==>
              var from := ResumePoint(policy, log, committed);
              && from.Some?
              && 1 <= |outcome.offsets| <= 3
              && from.value + |outcome.offsets| <= End(log)
              && Consecutive(outcome.offsets, from.value)
    ensures Prompt(answered) >= 4 ==>
              var from := ResumePoint(policy, log, committed);
              from.Some? && from.value < End(log) ==>
                outcome.Resumed? && |outcome.offsets| == Least(3, End(log) - from.value)
    ensures outcome.Resumed? ==>
              && skipped == ResumeSkips(policy, log, committed)
              && (skipped == Range(0, outcome.offsets[0]) <==> committed == None || committed == Some(0))
  {
    var c := new Consumer(limits, policy, World(log, NEW_GROUP.(committed := committed)));
    c.Subscribe();
    ghost var joined := c.world.group;
    var offsets: seq<nat> := [];
    var i := 0;
    var done := false;
    while i < |answered| && !c.world.group.halted && |offsets| < 3 && !done
      invariant 0 <= i <= |answered|
      invariant fresh(c) && c.world.log == log && c.policy == policy && c.limits == limits
      invariant (if done then (c.world.group, offsets) else Tried(policy, log, c.world.group, offsets, answered[i..]))
                == Tried(policy, log, joined, [], answered)
      decreases |answered| - i
    {
      var offset: Option<nat> := None;
      if answered[i] {
        offset := c.PollOnce();
      }
      assert answered[i..][1..] == answered[i + 1..];
      i := i + 1;
      if offset.Some? {
        offsets := offsets + [offset.value];
      } else if offsets != [] {
        done := true;
      }
    }
    JoinResuming(policy, log, committed);
    TriedResumes(policy, log, committed, joined, answered);
    outcome := if c.world.group.halted then Halted else if offsets == [] then Empty else Resumed(offsets);
    skipped := c.world.group.skipped;
    if outcome.Resumed? { PrintedRangeExact(policy, log, committed); }
  }
}
