/**
  When the active segment rolls. It alone is safe from retention, so everything depends on it: until it
  rolls nothing in it is deleted, however old.
  */
module Rolling {
  import opened SegmentedLog
  import opened Retention

  // Neither large enough nor old enough to roll; age counts from the first record.
  predicate NotDue(limits: Limits, clock: nat, records: seq<Record>) {
    records == [] || (BytesOf(records) < limits.segmentBytes && clock - records[0].time < limits.segmentMs)
  }

  // ---- the active segment blocks retention ----

  // Rolling happens at once, so no reachable active segment is due.
  lemma {:induction false} NeverDue(limits: Limits, events: seq<Event>)
    ensures var l := Reach(limits, events); NotDue(limits, l.clock, l.active.records)
    decreases |events|
  {
    if events != [] {
      NeverDue(limits, events[..|events| - 1]);
    }
  }

  // The active segment holds whatever was written from its base on.
  lemma {:induction false} ActiveIsTail(limits: Limits, events: seq<Event>)
    ensures var l := Reach(limits, events);
            && l.clock == Clock(events)
            && l.active.base <= |Written(events)|
            && l.active.records == Written(events)[l.active.base..]
  {
    Refines(limits, events);
    var l := Reach(limits, events);
    var n := l.active.base - Start(l);
    assert Contents(l)[|Flatten(l.closed)|..] == l.active.records;
    assert |Contents(l)| == End(l) - Start(l);
    assert Written(events)[Start(l)..][n..] == Written(events)[l.active.base..];
  }

  // A step keeps the active segment or closes it, and closing moves the base forward.
  lemma {:induction false} StepBase(limits: Limits, l: Log, e: Event)
    ensures var t := Step(limits, l, e);
            t.active.base == l.active.base || (t.active.base > l.active.base && t.active.records == [])
    ensures e.Append? && NotDue(limits, l.clock, l.active.records + [Record(e.payload, e.bytes, l.clock)]) ==>
              Step(limits, l, e).active.base == l.active.base
    ensures e.Wait? && NotDue(limits, l.clock + e.ms, l.active.records) ==>
              Step(limits, l, e).active.base == l.active.base
  {
  }

  lemma {:induction false} BaseNeverDecreases(limits: Limits, before: seq<Event>, after: seq<Event>)
    ensures Reach(limits, before).active.base <= Reach(limits, before + after).active.base
    decreases |after|
  {
    if after == [] {
      assert before + after == before;
    } else {
      var n := |after| - 1;
      assert (before + after)[..|before + after| - 1] == before + after[..n];
      BaseNeverDecreases(limits, before, after[..n]);
      StepBase(limits, Reach(limits, before + after[..n]), after[n]);
    }
  }

  lemma {:induction false} WrittenGrows(before: seq<Event>, after: seq<Event>)
    ensures Written(before) <= Written(before + after)
    decreases |after|
  {
    if after == [] {
      assert before + after == before;
    } else {
      assert (before + after)[..|before + after| - 1] == before + after[..|after| - 1];
      WrittenGrows(before, after[..|after| - 1]);
    }
  }

  // Records that are not due were not due before the last of them, or before time passed.
  lemma {:induction false} NotDueEarlier(limits: Limits, clock: nat, records: seq<Record>, e: Event)
    requires e.Append? ==> NotDue(limits, clock, records + [Record(e.payload, e.bytes, clock)])
    requires e.Wait? ==> NotDue(limits, clock + e.ms, records)
    requires e.Clean? ==> NotDue(limits, clock, records)
    ensures NotDue(limits, clock, records)
  {
    if e.Append? {
      BytesGrow(records, Record(e.payload, e.bytes, clock));
      assert records != [] ==> (records + [Record(e.payload, e.bytes, clock)])[0] == records[0];
    }
  }

  lemma {:induction false} KeptWhileNotDue(limits: Limits, before: seq<Event>, after: seq<Event>)
    requires Reach(limits, before).active.base <= |Written(before + after)|
    requires NotDue(limits, Clock(before + after), Written(before + after)[Reach(limits, before).active.base..])
    ensures Reach(limits, before + after).active.base == Reach(limits, before).active.base
    decreases |after|
  {
    if after == [] {
      assert before + after == before;
    } else {
      var base := Reach(limits, before).active.base;
      var n := |after| - 1;
      var mid, e := before + after[..n], after[n];
      assert before + after == mid + [e];
      StepKeepsBase(limits, before, after[..n], e);
      KeptWhileNotDue(limits, before, after[..n]);
      ActiveIsTail(limits, mid);
      var l := Reach(limits, mid);
      if e.Append? {
        var r := Record(e.payload, e.bytes, l.clock);
        assert (Written(mid) + [r])[base..] == Written(mid)[base..] + [r];
      }
      StepBase(limits, l, e);
      assert (mid + [e])[..|mid|] == mid;
    }
  }

  lemma {:induction false} StepKeepsBase(limits: Limits, before: seq<Event>, after: seq<Event>, e: Event)
    requires var base := Reach(limits, before).active.base;
             && base <= |Written(before + after + [e])|
             && NotDue(limits, Clock(before + after + [e]), Written(before + after + [e])[base..])
    ensures var base := Reach(limits, before).active.base;
            && base <= |Written(before + after)|
            && NotDue(limits, Clock(before + after), Written(before + after)[base..])
  {
    var mid := before + after;
    var base := Reach(limits, before).active.base;
    assert (mid + [e])[..|mid|] == mid;
    ActiveIsTail(limits, before);
    WrittenGrows(before, after);
    if e.Append? {
      var r := Record(e.payload, e.bytes, Clock(mid));
      assert (Written(mid) + [r])[base..] == Written(mid)[base..] + [r];
    } else {
      assert Written(mid + [e]) == Written(mid);
    }
    NotDueEarlier(limits, Clock(mid), Written(mid)[base..], e);
  }

  // From any reachable state on, through any schedule of appends, pauses and cleaner runs: the active
  // segment is still the same one if and only if what was written since its base is not due to roll,
  // and then all it held, however old, is still on disk.
  lemma {:induction false} ActiveKeptExactly(limits: Limits, before: seq<Event>, after: seq<Event>)
    ensures var l, t := Reach(limits, before), Reach(limits, before + after);
            && l.active.base <= |Written(before + after)|
            && (t.active.base == l.active.base
                <==> NotDue(limits, Clock(before + after), Written(before + after)[l.active.base..]))
            && (t.active.base == l.active.base ==> l.active.records <= t.active.records)
  {
    var l, t := Reach(limits, before), Reach(limits, before + after);
    ActiveIsTail(limits, before);
    ActiveIsTail(limits, before + after);
    WrittenGrows(before, after);
    NeverDue(limits, before + after);
    if NotDue(limits, Clock(before + after), Written(before + after)[l.active.base..]) {
      KeptWhileNotDue(limits, before, after);
    }
    if t.active.base == l.active.base {
      var w, more := Written(before), Written(before + after);
      assert more[..|w|] == w;
      assert w[l.active.base..] == more[l.active.base..][..|w| - l.active.base];
    }
  }

  // Everything written is still in the first, active segment.
  predicate Unrolled(l: Log, written: seq<Record>) {
    l.closed == [] && l.active == Segment(0, written)
  }

  lemma {:induction false} NothingClosedYet(limits: Limits, l: Log, e: Event)
    requires l.closed == [] && Step(limits, l, e).active.base == l.active.base
    ensures Step(limits, l, e).closed == []
  {
  }

  lemma {:induction false} NothingBeforeBase(limits: Limits, events: seq<Event>)
    requires Reach(limits, events).active.base == 0
    ensures Reach(limits, events).closed == []
    decreases |events|
  {
    if events != [] {
      var before, e := events[..|events| - 1], events[|events| - 1];
      StepBase(limits, Reach(limits, before), e);
      NothingBeforeBase(limits, before);
      NothingClosedYet(limits, Reach(limits, before), e);
    }
  }

  // The partition of the segment simulation, for all limits and runs: nothing ever rolled, and so
  // nothing was deleted, if and only if all that was written is below both roll limits, its age
  // counted from the first record.
  lemma {:induction false} QuietPartitionKeepsAll(limits: Limits, events: seq<Event>)
    ensures Unrolled(Reach(limits, events), Written(events))
            <==> NotDue(limits, Clock(events), Written(events))
  {
    assert [] + events == events;
    assert Written(events)[0..] == Written(events);
    ActiveKeptExactly(limits, [], events);
    ActiveIsTail(limits, events);
    if Reach(limits, events).active.base == 0 {
      NothingBeforeBase(limits, events);
    }
  }

  // ---- rolling by size ----

  // If this step rolls the segment, then because it is full.
  predicate BySize(limits: Limits, l: Log, e: Event) {
    match e
    case Append(payload, bytes) =>
      var put := Put(l, payload, bytes);
      MustRoll(limits, put) ==> BytesOf(put.active.records) >= limits.segmentBytes
    case Wait(ms) =>
      MustRoll(limits, l.(clock := l.clock + ms)) ==> BytesOf(l.active.records) >= limits.segmentBytes
    case Clean => true
  }

  // No segment of the run gets old enough to roll by age.
  ghost predicate OnlyBySize(limits: Limits, events: seq<Event>) {
    forall n :: 0 <= n < |events| ==> BySize(limits, Reach(limits, events[..n]), events[n])
  }

  lemma {:induction false} OnlyBySizePrefix(limits: Limits, events: seq<Event>, n: nat)
    requires OnlyBySize(limits, events) && n < |events|
    ensures OnlyBySize(limits, events[..n]) && BySize(limits, Reach(limits, events[..n]), events[n])
  {
    forall k | 0 <= k < n
      ensures BySize(limits, Reach(limits, events[..n][..k]), events[..n][k])
    {
      assert events[..n][..k] == events[..k];
    }
  }

  lemma {:induction false} ClockGrows(events: seq<Event>, n: nat)
    requires n <= |events|
    ensures Clock(events[..n]) <= Clock(events)
    decreases |events|
  {
    if n < |events| {
      assert events[..|events| - 1][..n] == events[..n];
      ClockGrows(events[..|events| - 1], n);
    } else {
      assert events[..n] == events;
    }
  }

  lemma {:induction false} EmptyOrSize(limits: Limits, l: Log, e: Event)
    requires l.clock + (if e.Wait? then e.ms else 0) < limits.segmentMs
    ensures BySize(limits, l, e)
  {
  }

  // A run shorter than the segment age, for one.
  lemma {:induction false} YoungRunsRollBySize(limits: Limits, events: seq<Event>)
    requires Clock(events) < limits.segmentMs
    ensures OnlyBySize(limits, events)
  {
    forall n | 0 <= n < |events|
      ensures BySize(limits, Reach(limits, events[..n]), events[n])
    {
      ClockGrows(events, n + 1);
      assert events[..n + 1][..n] == events[..n];
      Refines(limits, events[..n]);
      EmptyOrSize(limits, Reach(limits, events[..n]), events[n]);
    }
  }

  predicate AppendsOf(events: seq<Event>, size: nat) {
    forall i :: 0 <= i < |events| && events[i].Append? ==> events[i].bytes == size
  }

  predicate NoCleaner(events: seq<Event>) {
    forall i :: 0 <= i < |events| ==> !events[i].Clean?
  }

  lemma {:induction false} AppendsWritten(events: seq<Event>)
    requires forall i :: 0 <= i < |events| ==> events[i].Append?
    ensures |Written(events)| == |events| && Clock(events) == 0
    decreases |events|
  {
    if events != [] {
      AppendsWritten(events[..|events| - 1]);
    }
  }

  // perSegment is the number of equal-sized records that first reaches the segment size.
  predicate FirstToFill(limits: Limits, size: nat, perSegment: nat) {
    perSegment > 0 && (perSegment - 1) * size < limits.segmentBytes <= perSegment * size
  }

  ghost predicate Filling(l: Log, size: nat, perSegment: nat) {
    && |l.active.records| < perSegment
    && BytesOf(l.active.records) == |l.active.records| * size
    && (forall s :: s in l.closed ==> |s.records| == perSegment)
  }

  lemma {:induction false} FillingAppend(limits: Limits, l: Log, payload: nat, size: nat, perSegment: nat)
    requires FirstToFill(limits, size, perSegment) && Filling(l, size, perSegment)
    requires BySize(limits, l, Append(payload, size))
    ensures var t := Step(limits, l, Append(payload, size));
            && Filling(t, size, perSegment)
            && (if |l.active.records| + 1 == perSegment
                then t.closed == l.closed + [Put(l, payload, size).active] && t.active.records == []
                else t.closed == l.closed && |t.active.records| == |l.active.records| + 1)
  {
    var k := |l.active.records|;
    var put := Put(l, payload, size);
    BytesGrow(l.active.records, Record(payload, size, l.clock));
    Distribute(k, size);
    assert BytesOf(put.active.records) == (k + 1) * size;
    if k + 1 < perSegment {
      Monotone(k + 1, perSegment - 1, size);
      assert !MustRoll(limits, put);
    } else {
      assert MustRoll(limits, put);
    }
  }

  lemma {:induction false} CleanedSubset(limits: Limits, clock: nat, closed: seq<Segment>, s: Segment)
    requires s in Cleaned(limits, clock, closed)
    ensures s in closed
    decreases |closed|
  {
    if Deletes(limits, clock, closed) {
      CleanedSubset(limits, clock, closed[1..], s);
    }
  }

  lemma {:induction false} FillingOther(limits: Limits, l: Log, e: Event, size: nat, perSegment: nat)
    requires FirstToFill(limits, size, perSegment) && Filling(l, size, perSegment)
    requires BySize(limits, l, e) && !e.Append?
    ensures var t := Step(limits, l, e);
            && Filling(t, size, perSegment)
            && t.active == l.active && (e.Wait? ==> t.closed == l.closed)
  {
    match e
    case Wait(ms) => Monotone(|l.active.records|, perSegment - 1, size);
    case Clean =>
      forall s | s in Cleaned(limits, l.clock, l.closed)
        ensures s in l.closed
      {
        CleanedSubset(limits, l.clock, l.closed, s);
      }
    case _ =>
  }

  function Counted(l: Log, perSegment: nat): nat {
    |l.closed| * perSegment + |l.active.records|
  }

  lemma {:induction false} UniformStep(limits: Limits, l: Log, e: Event, size: nat, perSegment: nat)
    requires FirstToFill(limits, size, perSegment) && Filling(l, size, perSegment)
    requires BySize(limits, l, e) && (e.Append? ==> e.bytes == size)
    ensures Filling(Step(limits, l, e), size, perSegment)
    ensures !e.Clean? ==>
              Counted(Step(limits, l, e), perSegment) == Counted(l, perSegment) + if e.Append? then 1 else 0
  {
    if e.Append? {
      FillingAppend(limits, l, e.payload, size, perSegment);
      Distribute(|l.closed|, perSegment);
    } else {
      FillingOther(limits, l, e, size, perSegment);
    }
  }

  // Equal-sized records, with any pauses and cleaner runs between them: every segment takes exactly
  // the number of records that first reaches the segment size.
  lemma {:induction false} UniformRolls(limits: Limits, events: seq<Event>, size: nat, perSegment: nat)
    requires FirstToFill(limits, size, perSegment) && AppendsOf(events, size) && OnlyBySize(limits, events)
    ensures var l := Reach(limits, events);
            && Filling(l, size, perSegment)
            && (NoCleaner(events) ==> |l.closed| * perSegment + |l.active.records| == |Written(events)|)
    decreases |events|
  {
    if events != [] {
      var n := |events| - 1;
      OnlyBySizePrefix(limits, events, n);
      UniformRolls(limits, events[..n], size, perSegment);
      UniformStep(limits, Reach(limits, events[..n]), events[n], size, perSegment);
    }
  }

  // ---- one message a segment ----

  // A message that does not fill a segment shares it.
  lemma {:induction false} SmallMessagesShare(limits: Limits, events: seq<Event>, size: nat)
    requires AppendsOf(events, size) && OnlyBySize(limits, events) && NoCleaner(events) && size < limits.segmentBytes
    ensures var l := Reach(limits, events);
            2 * |l.closed| + |l.active.records| <= |Written(events)|
    decreases |events|
  {
    if events != [] {
      var n := |events| - 1;
      OnlyBySizePrefix(limits, events, n);
      SmallMessagesShare(limits, events[..n], size);
      NeverDue(limits, events[..n]);
      ShareStep(limits, Reach(limits, events[..n]), events[n], size);
    }
  }

  lemma {:induction false} ShareStep(limits: Limits, l: Log, e: Event, size: nat)
    requires NotDue(limits, l.clock, l.active.records) && BySize(limits, l, e) && !e.Clean?
    requires size < limits.segmentBytes && (e.Append? ==> e.bytes == size)
    ensures var t := Step(limits, l, e);
            2 * |t.closed| + |t.active.records|
            <= 2 * |l.closed| + |l.active.records| + if e.Append? then 1 else 0
  {
    if e.Append? {
      BytesGrow(l.active.records, Record(e.payload, e.bytes, l.clock));
      assert BytesOf([]) == 0;
    }
  }

  lemma {:induction false} LargeMessagesRoll(limits: Limits, events: seq<Event>, size: nat)
    requires AppendsOf(events, size) && NoCleaner(events) && size >= limits.segmentBytes
    ensures var l := Reach(limits, events);
            l.active.records == [] && |l.closed| == |Written(events)|
    decreases |events|
  {
    if events != [] {
      var n := |events| - 1;
      LargeMessagesRoll(limits, events[..n], size);
      if events[n].Append? {
        BytesGrow([], Record(events[n].payload, size, Reach(limits, events[..n]).clock));
      }
    }
  }

  // The segment simulation says its segments "roll with every message". For records of any one size,
  // with any pauses in which no segment gets too old, they do if and only if a single record fills a
  // segment.
  lemma {:induction false} EveryMessageRolls(limits: Limits, events: seq<Event>, size: nat)
    requires AppendsOf(events, size) && OnlyBySize(limits, events) && NoCleaner(events) && Written(events) != []
    ensures |Reach(limits, events).closed| == |Written(events)| <==> size >= limits.segmentBytes
  {
    if size >= limits.segmentBytes {
      LargeMessagesRoll(limits, events, size);
    } else {
      SmallMessagesShare(limits, events, size);
    }
  }
}
