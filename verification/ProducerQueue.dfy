/**
  The producer's two queues. `produce` only fills the message buffer; the background thread moves a
  message to the network and, once the broker has answered or the message has expired, queues its
  callback; `poll` fires whatever callbacks are queued; `flush` polls until nothing is left.
  */
module ProducerQueue {
  // A delivery callback: which message, and whether it was delivered.
  datatype Report = Report(id: nat, ok: bool)

  datatype State = State(
    produced: nat,            // messages handed to produce() so far; they are numbered in that order
    buffer: seq<nat>,
    inFlight: multiset<nat>,
    callbacks: seq<Report>,
    fired: seq<Report>
  )

  datatype Event =
    | Produce
    | Send                        // the background thread sends the oldest buffered message
    | Answer(id: nat, ok: bool)   // the broker answers for a message in flight
    | Expire                      // the oldest buffered message times out unsent
    | Fire                        // poll() fires the oldest queued callback

  const NEW := State(0, [], multiset{}, [], [])

  function Step(s: State, e: Event): State {
    match e
    case Produce => s.(produced := s.produced + 1, buffer := s.buffer + [s.produced])
    case Send =>
      if s.buffer == [] then s
      else s.(buffer := s.buffer[1..], inFlight := s.inFlight + multiset{s.buffer[0]})
    case Answer(id, ok) =>
      if id !in s.inFlight then s
      else s.(inFlight := s.inFlight - multiset{id}, callbacks := s.callbacks + [Report(id, ok)])
    case Expire =>
      if s.buffer == [] then s
      else s.(buffer := s.buffer[1..], callbacks := s.callbacks + [Report(s.buffer[0], false)])
    case Fire =>
      if s.callbacks == [] then s
      else s.(callbacks := s.callbacks[1..], fired := s.fired + [s.callbacks[0]])
  }

  function Reach(events: seq<Event>): State {
    if events == [] then NEW else Step(Reach(events[..|events| - 1]), events[|events| - 1])
  }

  // Nothing buffered, nothing in flight, no callback pending: what flush() waits for.
  predicate Idle(s: State) {
    s.buffer == [] && s.inFlight == multiset{} && s.callbacks == []
  }

  // The message numbers of some reports.
  function Ids(reports: seq<Report>): multiset<nat> {
    multiset(IdList(reports))
  }

  function IdList(reports: seq<Report>): seq<nat> {
    seq(|reports|, i requires 0 <= i < |reports| => reports[i].id)
  }

  function Successes(reports: seq<Report>): nat {
    if reports == [] then 0
    else Successes(reports[..|reports| - 1]) + if reports[|reports| - 1].ok then 1 else 0
  }

  function Failures(reports: seq<Report>): nat {
    if reports == [] then 0
    else Failures(reports[..|reports| - 1]) + if reports[|reports| - 1].ok then 0 else 1
  }

  // Each number below n once.
  function Numbers(n: nat): multiset<nat> {
    if n == 0 then multiset{} else Numbers(n - 1) + multiset{n - 1}
  }

  // Every message produced is in exactly one of the four places, once.
  ghost predicate Conserved(s: State) {
    multiset(s.buffer) + s.inFlight + Ids(s.callbacks) + Ids(s.fired) == Numbers(s.produced)
  }

  // ---- conservation ----

  lemma {:induction false} IdsSnoc(reports: seq<Report>, r: Report)
    ensures Ids(reports + [r]) == Ids(reports) + multiset{r.id}
  {
    assert IdList(reports + [r]) == IdList(reports) + [r.id];
  }

  lemma {:induction false} IdsCons(reports: seq<Report>)
    requires reports != []
    ensures Ids(reports) == multiset{reports[0].id} + Ids(reports[1..])
  {
    FrontRemoved(IdList(reports));
    assert IdList(reports)[1..] == IdList(reports[1..]);
  }

  lemma {:induction false} FrontRemoved(q: seq<nat>)
    requires q != []
    ensures multiset(q) == multiset{q[0]} + multiset(q[1..])
  {
    assert q == [q[0]] + q[1..];
  }

  lemma {:induction false} SendConserves(s: State)
    requires Conserved(s) && s.buffer != []
    ensures Conserved(Step(s, Send))
  {
    FrontRemoved(s.buffer);
  }

  lemma {:induction false} AnswerConserves(s: State, id: nat, ok: bool)
    requires Conserved(s) && id in s.inFlight
    ensures Conserved(Step(s, Answer(id, ok)))
  {
    IdsSnoc(s.callbacks, Report(id, ok));
  }

  lemma {:induction false} ExpireConserves(s: State)
    requires Conserved(s) && s.buffer != []
    ensures Conserved(Step(s, Expire))
  {
    FrontRemoved(s.buffer);
    IdsSnoc(s.callbacks, Report(s.buffer[0], false));
  }

  lemma {:induction false} FireConserves(s: State)
    requires Conserved(s) && s.callbacks != []
    ensures Conserved(Step(s, Fire))
  {
    IdsCons(s.callbacks);
    IdsSnoc(s.fired, s.callbacks[0]);
  }

  lemma {:induction false} StepConserves(s: State, e: Event)
    requires Conserved(s)
    ensures Conserved(Step(s, e))
  {
    match e
    case Produce => assert multiset(s.buffer + [s.produced]) == multiset(s.buffer) + multiset{s.produced};
    case Send => if s.buffer != [] { SendConserves(s); }
    case Answer(id, ok) => if id in s.inFlight { AnswerConserves(s, id, ok); }
    case Expire => if s.buffer != [] { ExpireConserves(s); }
    case Fire => if s.callbacks != [] { FireConserves(s); }
  }

  lemma {:induction false} AlwaysConserved(events: seq<Event>)
    ensures Conserved(Reach(events))
    decreases |events|
  {
    if events != [] {
      AlwaysConserved(events[..|events| - 1]);
      StepConserves(Reach(events[..|events| - 1]), events[|events| - 1]);
    }
  }

  // ---- counting ----

  lemma {:induction false} NumbersOnce(n: nat, id: nat)
    ensures Numbers(n)[id] == if id < n then 1 else 0
    ensures |Numbers(n)| == n
    decreases n
  {
    if n > 0 {
      NumbersOnce(n - 1, id);
    }
  }

  lemma {:induction false} IdsSize(reports: seq<Report>)
    ensures |Ids(reports)| == |reports| == Successes(reports) + Failures(reports)
    decreases |reports|
  {
    if reports != [] {
      IdsSize(reports[..|reports| - 1]);
    }
  }

  // Buffered, in flight, queued and fired messages add up to the produced ones, and no callback ever
  // fires twice, nor for a message never produced.
  lemma {:induction false} Conservation(s: State, id: nat)
    requires Conserved(s)
    ensures |s.buffer| + |s.inFlight| + |s.callbacks| + |s.fired| == s.produced
    ensures Ids(s.fired)[id] <= if id < s.produced then 1 else 0
  {
    NumbersOnce(s.produced, id);
    IdsSize(s.callbacks);
    IdsSize(s.fired);
    assert |multiset(s.buffer) + s.inFlight + Ids(s.callbacks) + Ids(s.fired)| == s.produced;
  }

  // Nothing is left exactly when every callback has fired, each once, and then successes and
  // failures add up to the number produced.
  lemma {:induction false} IdleMeansAllFired(s: State, id: nat)
    requires Conserved(s)
    ensures Idle(s) <==> |s.fired| == s.produced
    ensures Idle(s) ==> Ids(s.fired)[id] == if id < s.produced then 1 else 0
    ensures Idle(s) ==> Successes(s.fired) + Failures(s.fired) == s.produced
  {
    Conservation(s, id);
    NumbersOnce(s.produced, id);
    IdsSize(s.fired);
    assert |s.inFlight| == 0 ==> s.inFlight == multiset{};
  }

  lemma {:induction false} ReachSnoc(events: seq<Event>, e: Event)
    ensures Reach(events + [e]) == Step(Reach(events), e)
  {
    assert (events + [e])[..|events|] == events;
  }

  // Both hold at every step of every run.
  lemma {:induction false} OverAllRuns(events: seq<Event>, id: nat)
    ensures var s := Reach(events);
            && |s.buffer| + |s.inFlight| + |s.callbacks| + |s.fired| == s.produced
            && Ids(s.fired)[id] <= (if id < s.produced then 1 else 0)
            && (Idle(s) <==> |s.fired| == s.produced)
  {
    AlwaysConserved(events);
    Conservation(Reach(events), id);
    IdleMeansAllFired(Reach(events), id);
  }

  // The buffer holds the newest messages in the order they were produced.
  ghost predicate NewestInOrder(s: State) {
    && |s.buffer| <= s.produced
    && (forall i :: 0 <= i < |s.buffer| ==> s.buffer[i] == s.produced - |s.buffer| + i)
  }

  lemma {:induction false} StepInOrder(s: State, e: Event)
    requires NewestInOrder(s)
    ensures NewestInOrder(Step(s, e))
  {
  }

  lemma {:induction false} BufferInOrder(events: seq<Event>)
    ensures NewestInOrder(Reach(events))
    decreases |events|
  {
    if events != [] {
      var before, e := events[..|events| - 1], events[|events| - 1];
      BufferInOrder(before);
      StepInOrder(Reach(before), e);
      assert Reach(events) == Step(Reach(before), e);
    }
  }

  // ---- what the callbacks say ----

  // The broker answered for the message while it was in flight.
  ghost predicate Answered(events: seq<Event>, id: nat, ok: bool) {
    exists n :: 0 <= n < |events| && events[n] == Answer(id, ok) && id in Reach(events[..n]).inFlight
  }

  // The message timed out at the head of the buffer.
  ghost predicate Expired(events: seq<Event>, id: nat) {
    exists n :: 0 <= n < |events| && events[n] == Expire && OldestIs(Reach(events[..n]), id)
  }

  predicate OldestIs(s: State, id: nat) {
    s.buffer != [] && s.buffer[0] == id
  }

  predicate HasReport(s: State, r: Report) {
    r in s.callbacks || r in s.fired
  }

  lemma {:induction false} AnsweredSnoc(before: seq<Event>, e: Event, id: nat, ok: bool)
    ensures Answered(before + [e], id, ok) <==>
              Answered(before, id, ok) || (e == Answer(id, ok) && id in Reach(before).inFlight)
  {
    var events := before + [e];
    assert forall n :: 0 <= n <= |before| ==> events[..n] == before[..n];
    assert before[..|before|] == before;
    assert events[|before|] == e;
    assert forall n :: 0 <= n < |before| ==> events[n] == before[n];
  }

  lemma {:induction false} ExpiredSnoc(before: seq<Event>, e: Event, id: nat)
    ensures Expired(before + [e], id) <==> Expired(before, id) || (e == Expire && OldestIs(Reach(before), id))
  {
    var events := before + [e];
    assert forall n :: 0 <= n <= |before| ==> events[..n] == before[..n];
    assert before[..|before|] == before;
    assert events[|before|] == e;
    assert forall n :: 0 <= n < |before| ==> events[n] == before[n];
  }

  // The only new report of a step is its answer's, or its expiry's.
  lemma {:induction false} StepReports(s: State, e: Event, r: Report)
    ensures HasReport(Step(s, e), r) <==>
              || HasReport(s, r)
              || (e.Answer? && e.id in s.inFlight && r == Report(e.id, e.ok))
              || (e.Expire? && OldestIs(s, r.id) && !r.ok)
  {
    if e.Fire? && s.callbacks != [] {
      assert s.callbacks == [s.callbacks[0]] + s.callbacks[1..];
    }
  }

  // Over every run: a message is reported delivered if and only if the broker said so, and failed if and
  // only if the broker said so or it expired.
  lemma {:induction false} ReportsAreTrue(events: seq<Event>, id: nat)
    ensures HasReport(Reach(events), Report(id, true)) <==> Answered(events, id, true)
    ensures HasReport(Reach(events), Report(id, false)) <==> Answered(events, id, false) || Expired(events, id)
    decreases |events|
  {
    if events != [] {
      var before, e := events[..|events| - 1], events[|events| - 1];
      assert events == before + [e];
      ReportsAreTrue(before, id);
      AnsweredSnoc(before, e, id, true);
      AnsweredSnoc(before, e, id, false);
      ExpiredSnoc(before, e, id);
      StepReports(Reach(before), e, Report(id, true));
      StepReports(Reach(before), e, Report(id, false));
    }
  }

  // How many answers of one kind came for messages in flight, and how many messages expired.
  function AnswerCount(events: seq<Event>, ok: bool): nat {
    if events == [] then 0
    else
      var before, e := events[..|events| - 1], events[|events| - 1];
      AnswerCount(before, ok) + if e.Answer? && e.ok == ok && e.id in Reach(before).inFlight then 1 else 0
  }

  function ExpiryCount(events: seq<Event>): nat {
    if events == [] then 0
    else
      var before, e := events[..|events| - 1], events[|events| - 1];
      ExpiryCount(before) + if e.Expire? && Reach(before).buffer != [] then 1 else 0
  }

  lemma {:induction false} CountSnoc(before: seq<Event>, e: Event, ok: bool)
    ensures AnswerCount(before + [e], ok)
            == AnswerCount(before, ok) + if e.Answer? && e.ok == ok && e.id in Reach(before).inFlight then 1 else 0
    ensures ExpiryCount(before + [e])
            == ExpiryCount(before) + if e.Expire? && Reach(before).buffer != [] then 1 else 0
  {
    assert (before + [e])[..|before|] == before;
  }

  lemma {:induction false} SuccessesSnoc(reports: seq<Report>, r: Report)
    ensures Successes(reports + [r]) == Successes(reports) + if r.ok then 1 else 0
    ensures Failures(reports + [r]) == Failures(reports) + if r.ok then 0 else 1
  {
    assert (reports + [r])[..|reports|] == reports;
  }

  lemma {:induction false} SuccessesCons(reports: seq<Report>)
    requires reports != []
    ensures Successes(reports) == Successes(reports[1..]) + if reports[0].ok then 1 else 0
    ensures Failures(reports) == Failures(reports[1..]) + if reports[0].ok then 0 else 1
    decreases |reports|
  {
    var front, last := reports[..|reports| - 1], reports[|reports| - 1];
    if front != [] {
      SuccessesCons(front);
      SuccessesSnoc(front[1..], last);
      assert reports[1..] == front[1..] + [last];
    } else {
      assert reports[1..] == [];
    }
  }

  function AllSuccesses(s: State): nat {
    Successes(s.callbacks) + Successes(s.fired)
  }

  function AllFailures(s: State): nat {
    Failures(s.callbacks) + Failures(s.fired)
  }

  lemma {:induction false} StepCounts(s: State, e: Event)
    ensures AllSuccesses(Step(s, e)) == AllSuccesses(s) + if e.Answer? && e.ok && e.id in s.inFlight then 1 else 0
    ensures AllFailures(Step(s, e)) == AllFailures(s)
              + (if e.Answer? && !e.ok && e.id in s.inFlight then 1 else 0)
              + if e.Expire? && s.buffer != [] then 1 else 0
  {
    match e
    case Answer(id, ok) => SuccessesSnoc(s.callbacks, Report(id, ok));
    case Expire => if s.buffer != [] { SuccessesSnoc(s.callbacks, Report(s.buffer[0], false)); }
    case Fire =>
      if s.callbacks != [] {
        SuccessesCons(s.callbacks);
        SuccessesSnoc(s.fired, s.callbacks[0]);
      }
    case _ =>
  }

  lemma {:induction false} SuccessesAreTrue(events: seq<Event>)
    ensures AllSuccesses(Reach(events)) == AnswerCount(events, true)
    decreases |events|
  {
    if events != [] {
      var before, e := events[..|events| - 1], events[|events| - 1];
      assert before + [e] == events;
      SuccessesAreTrue(before);
      StepCounts(Reach(before), e);
      ReachSnoc(before, e);
      CountSnoc(before, e, true);
    }
  }

  lemma {:induction false} FailuresAreTrue(events: seq<Event>)
    ensures AllFailures(Reach(events)) == AnswerCount(events, false) + ExpiryCount(events)
    decreases |events|
  {
    if events != [] {
      var before, e := events[..|events| - 1], events[|events| - 1];
      assert before + [e] == events;
      FailuresAreTrue(before);
      StepCounts(Reach(before), e);
      ReachSnoc(before, e);
      CountSnoc(before, e, false);
    }
  }

  // In numbers: the successes and failures on record are the broker's answers and the expiries.
  lemma {:induction false} CountsAreTrue(events: seq<Event>)
    ensures AllSuccesses(Reach(events)) == AnswerCount(events, true)
    ensures AllFailures(Reach(events)) == AnswerCount(events, false) + ExpiryCount(events)
  {
    SuccessesAreTrue(events);
    FailuresAreTrue(events);
  }

  // ---- flush ends ----

  // Steps still to be taken: three for a buffered message, two for one in flight, one for a callback.
  function StepsLeft(s: State): nat {
    3 * |s.buffer| + 2 * |s.inFlight| + |s.callbacks|
  }

  // With nothing more produced, each step that does anything brings idleness nearer, at zero it is
  // there, and before that some step can be taken.
  lemma {:induction false} FlushAdvances(s: State, e: Event)
    requires !e.Produce?
    ensures Step(s, e) != s ==> StepsLeft(Step(s, e)) < StepsLeft(s)
    ensures StepsLeft(s) == 0 <==> Idle(s)
    ensures !Idle(s) ==> exists e': Event :: !e'.Produce? && Step(s, e') != s
  {
    if s.callbacks != [] {
      assert |Step(s, Fire).callbacks| < |s.callbacks|;
    } else if s.buffer != [] {
      assert |Step(s, Send).buffer| < |s.buffer|;
    } else if s.inFlight != multiset{} {
      var id :| id in s.inFlight;
      assert |Step(s, Answer(id, true)).callbacks| == 1;
    }
  }

  // Some steps after another, front to back.
  function After(s: State, events: seq<Event>): State
    decreases |events|
  {
    if events == [] then s else After(Step(s, events[0]), events[1..])
  }

  function EffectiveSteps(s: State, events: seq<Event>): nat
    decreases |events|
  {
    if events == [] then 0
    else (if Step(s, events[0]) != s then 1 else 0) + EffectiveSteps(Step(s, events[0]), events[1..])
  }

  // While flush waits, no run takes more effective steps than are left, and one that takes that many
  // has made the queues idle, so that flush returns.
  lemma {:induction false} FlushReturns(s: State, events: seq<Event>)
    requires forall e :: e in events ==> !e.Produce?
    ensures EffectiveSteps(s, events) + StepsLeft(After(s, events)) <= StepsLeft(s)
    ensures EffectiveSteps(s, events) >= StepsLeft(s) ==> Idle(After(s, events))
    decreases |events|
  {
    if events == [] {
      FlushAdvances(s, Fire);
    } else {
      FlushAdvances(s, events[0]);
      FlushReturns(Step(s, events[0]), events[1..]);
      FlushAdvances(After(s, events), Fire);
    }
  }

  // ---- the program ----

  predicate BackgroundStep(e: Event) {
    e.Send? || e.Answer? || e.Expire?
  }

  predicate AllBackgroundSteps(steps: seq<Event>) {
    forall i :: 0 <= i < |steps| ==> BackgroundStep(steps[i])
  }

  predicate AllBackground(script: seq<seq<Event>>) {
    forall i :: 0 <= i < |script| ==> AllBackgroundSteps(script[i])
  }

  // poll(): fire until no callback is queued.
  function FireAll(s: State): State
    decreases |s.callbacks|
  {
    if s.callbacks == [] then s else FireAll(Step(s, Fire))
  }

  // It fires exactly what was queued, oldest first, and touches nothing else.
  lemma {:induction false} FireAllFires(s: State)
    ensures FireAll(s) == s.(callbacks := [], fired := s.fired + s.callbacks)
    decreases |s.callbacks|
  {
    if s.callbacks == [] {
      assert s.fired + s.callbacks == s.fired;
    } else {
      FireAllFires(Step(s, Fire));
      assert s.fired + [s.callbacks[0]] + s.callbacks[1..] == s.fired + s.callbacks;
    }
  }

  // Message i of the producing loop: the background thread's steps, the message, and a poll with every
  // twentieth one.
  function ProduceNext(s: State, i: nat, script: seq<seq<Event>>): State {
    var before := if i < |script| then After(s, script[i]) else s;
    var sent := Step(before, Event.Produce);
    if i % 20 == 0 then FireAll(sent) else sent
  }

  // So after every twentieth message no callback is left waiting, and in between none is fired.
  lemma {:induction false} PollsEveryTwentieth(s: State, i: nat, script: seq<seq<Event>>)
    requires AllBackground(script)
    ensures var t := ProduceNext(s, i, script);
            && t.produced == s.produced + 1
            && (i % 20 == 0 ==> t.callbacks == [])
            && (i % 20 != 0 ==> t.fired == s.fired)
  {
    if i < |script| {
      assert AllBackgroundSteps(script[i]);
      AfterProduces(s, script[i]);
    }
    FireAllFires(Step(if i < |script| then After(s, script[i]) else s, Event.Produce));
  }

  function Producing(s: State, i: nat, count: nat, script: seq<seq<Event>>): State
    decreases count - i
  {
    if i >= count then s else Producing(ProduceNext(s, i, script), i + 1, count, script)
  }

  lemma {:induction false} AfterProduces(s: State, steps: seq<Event>)
    requires AllBackgroundSteps(steps)
    ensures After(s, steps).produced == s.produced && After(s, steps).fired == s.fired
    decreases |steps|
  {
    if steps != [] {
      AfterProduces(Step(s, steps[0]), steps[1..]);
    }
  }

  lemma {:induction false} ProducesCount(s: State, i: nat, count: nat, script: seq<seq<Event>>)
    requires AllBackground(script) && i <= count
    ensures Producing(s, i, count, script).produced == s.produced + count - i
    decreases count - i
  {
    if i < count {
      PollsEveryTwentieth(s, i, script);
      ProducesCount(ProduceNext(s, i, script), i + 1, count, script);
    }
  }

  // flush(): poll until idle.
  function Flushing(s: State, script: seq<seq<Event>>): State
    decreases |script|
  {
    if Idle(s) || script == [] then s else Flushing(FireAll(After(s, script[0])), script[1..])
  }

  // The background thread gets something done in every round in which it has something to do.
  predicate Working(s: State, script: seq<seq<Event>>)
    decreases |script|
  {
    !Idle(s) && script != [] ==>
      && (s.buffer != [] || s.inFlight != multiset{} ==> EffectiveSteps(s, script[0]) > 0)
      && Working(FireAll(After(s, script[0])), script[1..])
  }

  // The flush of the program returns once it has seen that many working rounds.
  lemma {:induction false} FlushingReturns(s: State, script: seq<seq<Event>>)
    requires AllBackground(script) && Working(s, script) && |script| >= StepsLeft(s)
    ensures Idle(Flushing(s, script))
    decreases |script|
  {
    FlushAdvances(s, Fire);
    if !Idle(s) && script != [] {
      assert AllBackgroundSteps(script[0]);
      FlushReturns(s, script[0]);
      var mid := After(s, script[0]);
      FireAllFires(mid);
      BackgroundKeepsCallbacks(s, script[0]);
      FlushingReturns(FireAll(mid), script[1..]);
    }
  }

  // Background steps only ever add callbacks.
  lemma {:induction false} BackgroundKeepsCallbacks(s: State, steps: seq<Event>)
    requires AllBackgroundSteps(steps)
    ensures |s.callbacks| <= |After(s, steps).callbacks|
    decreases |steps|
  {
    if steps != [] {
      BackgroundKeepsCallbacks(Step(s, steps[0]), steps[1..]);
    }
  }

  class Producer {
    var produced: nat
    var buffer: seq<nat>
    var inFlight: multiset<nat>
    var callbacks: seq<Report>
    var fired: seq<Report>          // history: the calls of on_delivery so far
    var delivered: nat              // the counter on_delivery keeps
    ghost var events: seq<Event>    // history: the steps taken so far

    constructor ()
      ensures Valid() && View() == NEW
    {
      produced, buffer, inFlight, callbacks, fired, delivered, events := 0, [], multiset{}, [], [], 0, [];
    }

    ghost function View(): State
      reads this
    {
      State(produced, buffer, inFlight, callbacks, fired)
    }

    ghost predicate Valid()
      reads this
    {
      View() == Reach(events) && delivered == Successes(fired)
    }

    method Produce()
      requires Valid()
      modifies this`produced, this`buffer, this`events
      ensures Valid() && View() == Step(old(View()), Event.Produce)
    {
      ReachSnoc(events, Event.Produce);
      events := events + [Event.Produce];
      buffer := buffer + [produced];
      produced := produced + 1;
    }

    // One step of the background thread.
    method Background(e: Event)
      requires BackgroundStep(e)
      modifies this`buffer, this`inFlight, this`callbacks
      ensures View() == Step(old(View()), e)
    {
      match e {
        case Send =>
          if buffer != [] {
            buffer, inFlight := buffer[1..], inFlight + multiset{buffer[0]};
          }
        case Answer(id, ok) =>
          if id in inFlight {
            inFlight, callbacks := inFlight - multiset{id}, callbacks + [Report(id, ok)];
          }
        case Expire =>
          if buffer != [] {
            buffer, callbacks := buffer[1..], callbacks + [Report(buffer[0], false)];
          }
      }
    }

    method Recorded(e: Event)
      requires Valid() && BackgroundStep(e)
      modifies this`buffer, this`inFlight, this`callbacks, this`events
      ensures Valid() && View() == Step(old(View()), e)
    {
      ReachSnoc(events, e);
      Background(e);
      events := events + [e];
    }

    method InBackground(steps: seq<Event>)
      requires Valid() && AllBackgroundSteps(steps)
      modifies this`buffer, this`inFlight, this`callbacks, this`events
      ensures Valid() && View() == After(old(View()), steps)
    {
      for i := 0 to |steps|
        invariant Valid() && After(View(), steps[i..]) == After(old(View()), steps)
      {
        assert steps[i..][0] == steps[i] && steps[i..][1..] == steps[i + 1..];
        Recorded(steps[i]);
      }
    }

    // on_delivery for the oldest queued callback.
    method OnDelivery()
      requires Valid() && callbacks != []
      modifies this`callbacks, this`fired, this`delivered, this`events
      ensures Valid() && View() == Step(old(View()), Fire)
    {
      var report := callbacks[0];
      ReachSnoc(events, Fire);
      events := events + [Fire];
      assert (fired + [report])[..|fired|] == fired;
      callbacks, fired := callbacks[1..], fired + [report];
      if report.ok {
        delivered := delivered + 1;
      }
    }

    // poll(0): run on_delivery for every queued callback.
    method Poll()
      requires Valid()
      modifies this`callbacks, this`fired, this`delivered, this`events
      ensures Valid() && View() == FireAll(old(View()))
    {
      while callbacks != []
        invariant Valid() && FireAll(View()) == FireAll(old(View()))
        decreases |callbacks|
      {
        OnDelivery();
      }
    }

    method ProduceOne(i: nat, script: seq<seq<Event>>)
      requires Valid() && AllBackground(script)
      modifies this
      ensures Valid() && View() == ProduceNext(old(View()), i, script)
    {
      if i < |script| {
        assert AllBackgroundSteps(script[i]);
        InBackground(script[i]);
      }
      Produce();
      if i % 20 == 0 {
        Poll();
      }
    }

    method ProduceAll(count: nat, script: seq<seq<Event>>)
      requires Valid() && AllBackground(script)
      modifies this
      ensures Valid() && View() == Producing(old(View()), 0, count, script)
    {
      for i := 0 to count
        invariant Valid() && Producing(View(), i, count, script) == Producing(old(View()), 0, count, script)
      {
        ProduceOne(i, script);
      }
    }

    // flush(): poll until nothing is buffered, in flight or queued. It blocks for as long as that
    // takes, so it returns only if the background thread's script gets that far.
    method Flush(script: seq<seq<Event>>) returns (flushed: bool)
      requires Valid() && AllBackground(script)
      modifies this`buffer, this`inFlight, this`callbacks, this`fired, this`delivered, this`events
      ensures Valid() && (flushed <==> Idle(View()))
      ensures View() == Flushing(old(View()), script)
    {
      var next := 0;
      while !(buffer == [] && inFlight == multiset{} && callbacks == []) && next < |script|
        invariant Valid() && 0 <= next <= |script|
        invariant Flushing(View(), script[next..]) == Flushing(old(View()), script)
        decreases |script| - next
      {
        assert AllBackgroundSteps(script[next]);
        assert script[next..][0] == script[next] && script[next..][1..] == script[next + 1..];
        InBackground(script[next]);
        Poll();
        next := next + 1;
      }
      flushed := buffer == [] && inFlight == multiset{} && callbacks == [];
    }

    // The whole program. The scripts say what the background thread does before each of its steps.
    method Publish(count: nat, producing: seq<seq<Event>>, flushing: seq<seq<Event>>) returns (flushed: bool)
      requires Valid() && View() == NEW
      requires AllBackground(producing) && AllBackground(flushing)
      modifies this
      ensures Valid() && produced == count
      ensures View() == Flushing(Producing(NEW, 0, count, producing), flushing)
      ensures flushed <==> Idle(View())
      ensures flushed ==> delivered == AnswerCount(events, true)
      ensures flushed ==> delivered + Failures(fired) == count
      ensures forall id: nat :: Report(id, true) in fired ==> Answered(events, id, true)
      ensures forall id: nat :: Report(id, false) in fired ==> Answered(events, id, false) || Expired(events, id)
      ensures flushed ==> forall id: nat :: Ids(fired)[id] == if id < count then 1 else 0
      ensures !flushed ==> |fired| < count
    {
      ProduceAll(count, producing);
      ProducesCount(NEW, 0, count, producing);
      flushed := Flush(flushing);
      AlwaysConserved(events);
      Conservation(View(), 0);
      CountsAreTrue(events);
      forall id: nat
        ensures Report(id, true) in fired ==> Answered(events, id, true)
        ensures Report(id, false) in fired ==> Answered(events, id, false) || Expired(events, id)
      {
        ReportsAreTrue(events, id);
      }
      forall id: nat
        ensures flushed ==> Ids(fired)[id] == if id < count then 1 else 0
      {
        IdleMeansAllFired(View(), id);
      }
      IdleMeansAllFired(View(), 0);
    }
  }
}
