/**
  A consumer group on one partition: poll, commit, crash, resume, while retention deletes old
  segments underneath it. A committed offset below the log start is out of range, and
  `auto.offset.reset` decides what happens then.
  */
module ConsumerResume {
  import opened Basics
  import opened SegmentedLog
  import opened Retention
  import opened Rolling
  import opened Capacity

  datatype Reset = Earliest | Latest | Error

  // position is None while no consumer runs; halted records an out-of-range exception.
  datatype Group = Group(
    committed: Option<nat>,
    position: Option<nat>,
    halted: bool,
    delivered: set<nat>,    // history: offsets handed to the application
    skipped: set<nat>       // history: offsets jumped over by a reset
  )

  datatype Action = Broker(event: SegmentedLog.Event) | Join | Poll | Commit | Leave

  datatype World = World(log: Log, group: Group)

  const NEW_GROUP := Group(None, None, false, {}, {})

  // No valid position: jump to one end of the log, or halt.
  function ResetFrom(policy: Reset, l: Log, g: Group, from: nat): Group {
    match policy
    case Earliest => g.(position := Some(Start(l)), skipped := g.skipped + Range(from, Start(l)))
    case Latest => g.(position := Some(End(l)), skipped := g.skipped + Range(from, End(l)))
    case Error => g.(position := None, halted := true)
  }

  function JoinStep(policy: Reset, l: Log, g: Group): Group {
    if g.position.Some? then g
    else if g.committed.Some? then g.(position := g.committed, halted := false)
    else ResetFrom(policy, l, g.(halted := false), 0)
  }

  function PollStep(policy: Reset, l: Log, g: Group): Group {
    if g.position.None? then g
    else
      var p := g.position.value;
      if p < Start(l) then ResetFrom(policy, l, g, p)
      else if p < End(l) then g.(position := Some(p + 1), delivered := g.delivered + {p})
      else g
  }

  function Act(limits: Limits, policy: Reset, w: World, a: Action): World {
    match a
    case Broker(e) => w.(log := Step(limits, w.log, e))
    case Join => w.(group := JoinStep(policy, w.log, w.group))
    case Poll => w.(group := PollStep(policy, w.log, w.group))
    case Commit =>
      if w.group.position.Some? then w.(group := w.group.(committed := w.group.position)) else w
    case Leave => w.(group := w.group.(position := None))
  }

  function Run(limits: Limits, policy: Reset, w: World, actions: seq<Action>): World {
    if actions == [] then w
    else Act(limits, policy, Run(limits, policy, w, actions[..|actions| - 1]), actions[|actions| - 1])
  }

  function ReachWorld(limits: Limits, policy: Reset, actions: seq<Action>): World {
    Run(limits, policy, World(EMPTY, NEW_GROUP), actions)
  }

  lemma {:induction false} RunAppend(limits: Limits, policy: Reset, w: World, first: seq<Action>, rest: seq<Action>)
    ensures Run(limits, policy, w, first + rest) == Run(limits, policy, Run(limits, policy, w, first), rest)
    decreases |rest|
  {
    if rest == [] {
      assert first + rest == first;
    } else {
      var n := |rest| - 1;
      assert (first + rest)[..|first + rest| - 1] == first + rest[..n];
      RunAppend(limits, policy, w, first, rest[..n]);
    }
  }

  // The broker's part of a run.
  function BrokerEvents(actions: seq<Action>): seq<SegmentedLog.Event> {
    if actions == [] then []
    else
      var a := actions[|actions| - 1];
      BrokerEvents(actions[..|actions| - 1]) + if a.Broker? then [a.event] else []
  }

  lemma {:induction false} LogOfRun(limits: Limits, policy: Reset, actions: seq<Action>)
    ensures ReachWorld(limits, policy, actions).log == Reach(limits, BrokerEvents(actions))
    decreases |actions|
  {
    if actions != [] {
      var n := |actions| - 1;
      LogOfRun(limits, policy, actions[..n]);
      var before := BrokerEvents(actions[..n]);
      if actions[n].Broker? {
        assert (before + [actions[n].event])[..|before|] == before;
      } else {
        assert before + [] == before;
      }
    }
  }

  // ---- nothing is passed over in silence ----

  // Every offset below p was handed over or counted as skipped.
  ghost predicate AccountedUpTo(g: Group, p: nat) {
    Range(0, p) <= g.delivered + g.skipped
  }

  ghost predicate SkipsMatchPolicy(policy: Reset, l: Log, g: Group) {
    match policy
    case Earliest => g.skipped <= Range(0, Start(l))
    case Latest => g.skipped <= Range(0, End(l))
    case Error => g.skipped == {}
  }

  ghost predicate Accounted(policy: Reset, w: World) {
    && (w.group.position.Some? ==> AccountedUpTo(w.group, w.group.position.value) && w.group.position.value <= End(w.log))
    && (w.group.committed.Some? ==> AccountedUpTo(w.group, w.group.committed.value) && w.group.committed.value <= End(w.log))
    && SkipsMatchPolicy(policy, w.log, w.group)
    && (forall o :: o in w.group.delivered ==> o < End(w.log))
  }

  lemma {:induction false} ResetAccounted(policy: Reset, w: World, g: Group, from: nat)
    requires Accounted(policy, w) && AccountedUpTo(g, from)
    requires g.delivered == w.group.delivered && g.skipped == w.group.skipped && g.committed == w.group.committed
    requires Start(w.log) <= End(w.log)
    ensures Accounted(policy, w.(group := ResetFrom(policy, w.log, g, from)))
  {
    var h := ResetFrom(policy, w.log, g, from);
    if h.position.Some? {
      assert Range(0, h.position.value) <= Range(0, from) + Range(from, h.position.value);
    }
  }

  lemma {:induction false} StepAccounted(limits: Limits, policy: Reset, w: World, a: Action, written: seq<Record>)
    requires Accounted(policy, w) && Represents(w.log, written)
    ensures Accounted(policy, Act(limits, policy, w, a))
  {
    match a
    case Broker(e) => StepRepresents(limits, w.log, e, written);
    case Join =>
      if w.group.position.None? && w.group.committed.None? {
        ResetAccounted(policy, w, w.group.(halted := false), 0);
      }
    case Poll =>
      if w.group.position.Some? {
        var p := w.group.position.value;
        if p < Start(w.log) {
          ResetAccounted(policy, w, w.group, p);
        } else if p < End(w.log) {
          assert Range(0, p + 1) == Range(0, p) + {p};
        }
      }
    case Commit =>
    case Leave =>
  }

  // Over whole runs of consuming, committing, crashing and retention. Under earliest, whatever was
  // not handed over had been deleted by now; under latest it lies before the end of the log; under
  // error every offset before the committed one was handed over.
  lemma {:induction false} NothingSilentlyLost(limits: Limits, policy: Reset, actions: seq<Action>)
    ensures Accounted(policy, ReachWorld(limits, policy, actions))
    decreases |actions|
  {
    if actions != [] {
      var n := |actions| - 1;
      NothingSilentlyLost(limits, policy, actions[..n]);
      LogOfRun(limits, policy, actions[..n]);
      Refines(limits, BrokerEvents(actions[..n]));
      StepAccounted(limits, policy, ReachWorld(limits, policy, actions[..n]), actions[n],
                    Written(BrokerEvents(actions[..n])));
    }
  }

  // At least once, spelled out for the offset a caller cares about.
  lemma {:induction false} AtLeastOnce(limits: Limits, policy: Reset, actions: seq<Action>, o: nat)
    requires var g := ReachWorld(limits, policy, actions).group;
             g.committed.Some? && o < g.committed.value && o !in g.delivered
    ensures policy != Error
    ensures policy == Earliest ==> o < Start(ReachWorld(limits, policy, actions).log)
  {
    NothingSilentlyLost(limits, policy, actions);
    assert o in Range(0, ReachWorld(limits, policy, actions).group.committed.value);
  }

  // Where a group resumes on a given log: its committed offset if that still exists, otherwise
  // whatever the policy says; nowhere under error.
  function ResumePoint(policy: Reset, l: Log, committed: Option<nat>): Option<nat> {
    if committed.Some? && Start(l) <= committed.value then committed
    else match policy
         case Earliest => Some(Start(l))
         case Latest => Some(End(l))
         case Error => None
  }

  // What one resume passes over: nothing from a valid committed offset, otherwise everything from
  // the committed offset, or from zero without one, up to the resume point.
  function ResumeSkips(policy: Reset, l: Log, committed: Option<nat>): set<nat> {
    match ResumePoint(policy, l, committed)
    case None => {}
    case Some(first) => Range(if committed.Some? then committed.value else 0, first)
  }

  lemma {:induction false} EmptyRange(n: nat)
    ensures Range(n, n) == {}
  {
  }

  // Joining and polling once, from any group that is not running.
  lemma {:induction false} ResumeStep(policy: Reset, l: Log, g: Group)
    requires g.position.None?
    ensures var h := PollStep(policy, l, JoinStep(policy, l, g));
            && h.committed == g.committed
            && h.skipped == g.skipped + ResumeSkips(policy, l, g.committed)
            && (ResumePoint(policy, l, g.committed).None? <==> h.position.None?)
            && (h.halted <==> h.position.None?)
  {
    var first := ResumePoint(policy, l, g.committed);
    if first.Some? { EmptyRange(first.value); }
  }

  // Every resume, in any reachable state: it skips exactly [c, log start) or [c, log end) for a
  // deleted committed offset c, the same from zero when nothing was ever committed, and nothing at
  // all when the committed offset still exists; under error it halts. The next poll stands at the
  // resume point, or one past it if it was answered with that message.
  lemma {:induction false} ResumeSkipsExactly(limits: Limits, policy: Reset, actions: seq<Action>)
    requires ReachWorld(limits, policy, actions).group.position.None?
    ensures var w := ReachWorld(limits, policy, actions);
            var t := ReachWorld(limits, policy, actions + [Join, Poll]);
            && t.log == w.log && t.group.committed == w.group.committed
            && t.group.skipped == w.group.skipped + ResumeSkips(policy, w.log, w.group.committed)
            && (t.group.halted <==> ResumePoint(policy, w.log, w.group.committed).None?)
            && (match ResumePoint(policy, w.log, w.group.committed)
                case None => t.group.halted && t.group.position == None && t.group.skipped == {}
                case Some(first) =>
                  && t.group.position.Some?
                  && Range(0, first) <= t.group.delivered + t.group.skipped)
  {
    var all := actions + [Join, Poll];
    var mid := actions + [Join];
    assert all[..|all| - 1] == mid && mid[..|mid| - 1] == actions;
    var w := ReachWorld(limits, policy, actions);
    assert ReachWorld(limits, policy, mid) == Act(limits, policy, w, Join);
    assert ReachWorld(limits, policy, all) == Act(limits, policy, ReachWorld(limits, policy, mid), Poll);
    ResumeStep(policy, w.log, w.group);
    NothingSilentlyLost(limits, policy, all);
  }

  // The log start simulation prints "offsets 0 to first - 1 were silently skipped" after every
  // successful resume. That is right if and only if nothing, or offset zero, was committed.
  lemma {:induction false} PrintedRangeExact(policy: Reset, l: Log, committed: Option<nat>)
    requires Start(l) <= End(l) && ResumePoint(policy, l, committed).Some?
    ensures var first := ResumePoint(policy, l, committed).value;
            ResumeSkips(policy, l, committed) == Range(0, first) <==> committed == None || committed == Some(0)
  {
    var first := ResumePoint(policy, l, committed).value;
    if committed.Some? && committed.value > 0 {
      assert 0 in Range(0, first);
      assert 0 !in ResumeSkips(policy, l, committed);
    }
  }

  // In the simulation ten offsets were consumed and committed: whatever retention then deleted, the
  // printed range takes the ten for skipped although they were handed over.
  lemma {:induction false} SimulationPrintsTooMuch(policy: Reset, l: Log)
    requires 10 < Start(l) <= End(l) && policy != Error
    ensures var first := ResumePoint(policy, l, Some(10));
            && first.Some?
            && ResumeSkips(policy, l, Some(10)) == Range(10, first.value)
            && Range(0, first.value) - ResumeSkips(policy, l, Some(10)) == Range(0, 10)
  {
  }

  // Limits under which every record fills a segment and every closed segment is deleted.
  predicate OneByOne(limits: Limits) {
    limits.segmentBytes == 1 && limits.segmentMs > 0 && limits.retentionMs == 0 && limits.retentionBytes == Some(0)
  }

  lemma {:induction false} AllDeleted(limits: Limits, events: seq<SegmentedLog.Event>)
    requires OneByOne(limits)
    requires forall i :: 0 <= i < |events| ==> events[i].Append? && events[i].bytes == 1
    ensures var l := Reach(limits, events + [Clean]);
            l.closed == [] && l.active == Segment(|events|, [])
  {
    AppendsWritten(events);
    YoungRunsRollBySize(limits, events);
    UniformRolls(limits, events, 1, 1);
    NothingClosedIsKept(limits, 0, events);
    ReachSnoc(limits, events, Clean);
    Refines(limits, events);
  }

  // Such a log: every record so far deleted, then one more appended.
  lemma {:induction false} DeletedThenOne(limits: Limits, events: seq<SegmentedLog.Event>)
    requires OneByOne(limits)
    requires forall i :: 0 <= i < |events| ==> events[i].Append? && events[i].bytes == 1
    ensures var l := Reach(limits, events + [Clean] + [Append(0, 1)]);
            Start(l) == |events| && End(l) == |events| + 1
  {
    AllDeleted(limits, events);
    ReachSnoc(limits, events + [Clean], Append(0, 1));
    var l := Reach(limits, events + [Clean]);
    var r := Record(0, 1, l.clock);
    BytesGrow([], r);
    assert Put(l, 0, 1).active.records == [r] == [] + [r];
  }

  // While the committed offset still exists, the reset policy plays no part.
  lemma {:induction false} ValidOffsetIgnoresPolicy(policy: Reset, other: Reset, l: Log, g: Group)
    requires g.position.None? && g.committed.Some? && Start(l) <= g.committed.value
    ensures PollStep(policy, l, JoinStep(policy, l, g)) == PollStep(other, l, JoinStep(other, l, g))
    ensures PollStep(policy, l, JoinStep(policy, l, g)).skipped == g.skipped
  {
  }
}
