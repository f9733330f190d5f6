/**
  The segmented log refines a plain append-only sequence with a start offset, and the cleaner
  does what retention promises and no more.
  */
module Retention {
  import opened Basics
  import opened SegmentedLog

  // Closed segment i is not empty and ends where the next one begins, the last one at `end`.
  predicate Joins(closed: seq<Segment>, i: nat, end: nat)
    requires i < |closed|
  {
    && closed[i].records != []
    && closed[i].base + |closed[i].records| == if i + 1 < |closed| then closed[i + 1].base else end
  }

  ghost predicate Contiguous(closed: seq<Segment>, end: nat) {
    forall i :: 0 <= i < |closed| ==> Joins(closed, i, end)
  }

  lemma {:induction false} ContiguousTail(closed: seq<Segment>, end: nat)
    requires Contiguous(closed, end) && closed != []
    ensures Contiguous(closed[1..], end)
    ensures closed[0].records != []
    ensures closed[0].base + |closed[0].records| == if |closed| > 1 then closed[1].base else end
  {
    var rest := closed[1..];
    forall i | 0 <= i < |rest|
      ensures Joins(rest, i, end)
    {
      assert Joins(closed, i + 1, end);
    }
    assert Joins(closed, 0, end);
  }

  lemma {:induction false} FlattenAppend(closed: seq<Segment>, s: Segment)
    ensures Flatten(closed + [s]) == Flatten(closed) + s.records
  {
    if closed == [] {
    } else {
      FlattenAppend(closed[1..], s);
      assert (closed + [s])[1..] == closed[1..] + [s];
    }
  }

  // The bytes on disk are the tail of what was written, from the start offset on.
  ghost predicate Represents(l: Log, written: seq<Record>) {
    && Contiguous(l.closed, l.active.base)
    && Start(l) <= l.active.base
    && End(l) == |written|
    && Contents(l) == written[Start(l)..]
  }

  lemma {:induction false} RollRepresents(limits: Limits, l: Log, written: seq<Record>)
    requires Represents(l, written)
    ensures Represents(Roll(limits, l), written)
    ensures Start(Roll(limits, l)) == Start(l)
  {
    var t := Roll(limits, l);
    if t != l {
      FlattenAppend(l.closed, l.active);
      forall i | 0 <= i < |t.closed|
        ensures Joins(t.closed, i, t.active.base)
      {
        if i < |l.closed| { assert Joins(l.closed, i, l.active.base); }
      }
    }
  }

  lemma {:induction false} PutRepresents(l: Log, written: seq<Record>, payload: nat, bytes: nat)
    requires Represents(l, written)
    ensures Represents(Put(l, payload, bytes), written + [Record(payload, bytes, l.clock)])
    ensures Start(Put(l, payload, bytes)) == Start(l)
  {
    var r := Record(payload, bytes, l.clock);
    var t := Put(l, payload, bytes);
    assert Contents(t) == Contents(l) + [r];
    assert (written + [r])[Start(l)..] == written[Start(l)..] + [r];
  }

  // Deleting the oldest closed segment moves the start offset to the next one.
  lemma {:induction false} DropRepresents(l: Log, written: seq<Record>)
    requires Represents(l, written) && l.closed != []
    ensures var t := l.(closed := l.closed[1..]);
            Represents(t, written) && Start(l) < Start(t)
  {
    var t := l.(closed := l.closed[1..]);
    var n := |l.closed[0].records|;
    ContiguousTail(l.closed, l.active.base);
    assert Start(t) == Start(l) + n;
    assert Contents(l) == l.closed[0].records + Contents(t);
    assert Contents(t) == Contents(l)[n..] == written[Start(t)..];
  }

  lemma {:induction false} CleanRepresents(limits: Limits, l: Log, written: seq<Record>)
    requires Represents(l, written)
    ensures var t := l.(closed := Cleaned(limits, l.clock, l.closed));
            Represents(t, written) && Start(l) <= Start(t)
    decreases |l.closed|
  {
    if Deletes(limits, l.clock, l.closed) {
      DropRepresents(l, written);
      CleanRepresents(limits, l.(closed := l.closed[1..]), written);
    }
  }

  lemma {:induction false} StepRepresents(limits: Limits, l: Log, e: Event, written: seq<Record>)
    requires Represents(l, written)
    ensures Represents(Step(limits, l, e),
                       written + if e.Append? then [Record(e.payload, e.bytes, l.clock)] else [])
    ensures Start(l) <= Start(Step(limits, l, e))
  {
    match e
    case Append(payload, bytes) =>
      PutRepresents(l, written, payload, bytes);
      RollRepresents(limits, Put(l, payload, bytes), written + [Record(payload, bytes, l.clock)]);
    case Wait(ms) =>
      assert written + [] == written;
      var waited := l.(clock := l.clock + ms);
      assert Contents(waited) == Contents(l) && Start(waited) == Start(l);
      RollRepresents(limits, waited, written);
    case Clean =>
      assert written + [] == written;
      CleanRepresents(limits, l, written);
  }

  // After any mix of appends, rolls and cleaner runs, the log on disk is the append-only sequence
  // cut at the start offset, which stays within the closed part.
  lemma {:induction false} Refines(limits: Limits, events: seq<Event>)
    ensures var l := Reach(limits, events);
            && l.clock == Clock(events)
            && Represents(l, Written(events))
    decreases |events|
  {
    if events != [] {
      var n := |events| - 1;
      Refines(limits, events[..n]);
      StepRepresents(limits, Reach(limits, events[..n]), events[n], Written(events[..n]));
    }
  }

  lemma {:induction false} StepNeverBack(limits: Limits, events: seq<Event>, e: Event)
    ensures Start(Reach(limits, events)) <= Start(Reach(limits, events + [e]))
  {
    assert (events + [e])[..|events|] == events;
    Refines(limits, events);
    StepRepresents(limits, Reach(limits, events), e, Written(events));
  }

  // The start offset never moves back.
  lemma {:induction false} StartNeverDecreases(limits: Limits, before: seq<Event>, after: seq<Event>)
    ensures Start(Reach(limits, before)) <= Start(Reach(limits, before + after))
    decreases |after|
  {
    if after == [] {
      assert before + after == before;
    } else {
      var n := |after| - 1;
      var mid := before + after[..n];
      assert before + after == mid + [after[n]];
      StartNeverDecreases(limits, before, after[..n]);
      StepNeverBack(limits, mid, after[n]);
    }
  }

  // ---- what the cleaner deletes ----

  // Stamps never run backwards inside a log.
  ghost predicate Sorted(records: seq<Record>, clock: nat) {
    && (forall i, j :: 0 <= i <= j < |records| ==> records[i].time <= records[j].time)
    && (forall i :: 0 <= i < |records| ==> records[i].time <= clock)
  }

  lemma {:induction false} WrittenSorted(events: seq<Event>)
    ensures Sorted(Written(events), Clock(events))
    decreases |events|
  {
    if events != [] {
      WrittenSorted(events[..|events| - 1]);
    }
  }

  // Position of a closed segment's records inside the flattened log.
  lemma {:induction false} SegmentInFlatten(closed: seq<Segment>, i: nat) returns (from: nat)
    requires i < |closed|
    ensures from + |closed[i].records| <= |Flatten(closed)|
    ensures Flatten(closed)[from..from + |closed[i].records|] == closed[i].records
    ensures i > 0 ==> from >= |closed[0].records|
    decreases |closed|
  {
    if i == 0 {
      from := 0;
    } else {
      var rest := SegmentInFlatten(closed[1..], i - 1);
      from := |closed[0].records| + rest;
      var n := |closed[i].records|;
      assert Flatten(closed)[from..from + n] == Flatten(closed[1..])[rest..rest + n];
    }
  }

  // When stamps are sorted, an unexpired oldest segment means no segment is expired.
  lemma {:induction false} OldestDecides(limits: Limits, clock: nat, closed: seq<Segment>, i: nat)
    requires Sorted(Flatten(closed), clock) && i < |closed| && closed[0].records != []
    requires !Expired(limits, clock, closed[0])
    ensures !Expired(limits, clock, closed[i])
  {
    if i > 0 && closed[i].records != [] {
      var zero := SegmentInFlatten(closed, 0);
      var from := SegmentInFlatten(closed, i);
      var n := |closed[0].records|;
      var last := from + |closed[i].records| - 1;
      assert Flatten(closed)[n - 1] == closed[0].records[n - 1];
      assert Flatten(closed)[from..last + 1][last - from] == Flatten(closed)[last];
    }
  }

  // One cleaner run: it deletes a prefix of the closed segments, each of them expired or needed
  // to get back under the cap when its turn came, and then nothing closed is expired or over it.
  lemma {:induction false} CleanerExact(limits: Limits, clock: nat, closed: seq<Segment>) returns (k: nat)
    requires Sorted(Flatten(closed), clock)
    requires forall s :: s in closed ==> s.records != []
    ensures k <= |closed| && Cleaned(limits, clock, closed) == closed[k..]
    ensures forall i :: 0 <= i < k ==> Expired(limits, clock, closed[i]) || OverCap(limits, closed[i..])
    ensures forall s :: s in closed[k..] ==> !Expired(limits, clock, s)
    ensures !OverCap(limits, closed[k..])
    decreases |closed|
  {
    if Deletes(limits, clock, closed) {
      var n := |closed[0].records|;
      assert Flatten(closed[1..]) == Flatten(closed)[n..];
      var rest := CleanerExact(limits, clock, closed[1..]);
      k := rest + 1;
      assert closed[1..][rest..] == closed[k..];
      forall i | 0 <= i < k
        ensures Expired(limits, clock, closed[i]) || OverCap(limits, closed[i..])
      {
        if i > 0 {
          assert closed[1..][i - 1] == closed[i] && closed[1..][i - 1..] == closed[i..];
        } else {
          assert closed[0..] == closed;
        }
      }
    } else {
      k := 0;
      assert closed[0..] == closed;
      forall s | s in closed
        ensures !Expired(limits, clock, s)
      {
        var i :| 0 <= i < |closed| && closed[i] == s;
        OldestDecides(limits, clock, closed, i);
      }
    }
  }

  // The same over whole runs: right after a cleaner run the closed part is within both limits.
  lemma {:induction false} CleanLeavesWithinLimits(limits: Limits, events: seq<Event>)
    ensures var l := Reach(limits, events + [Clean]);
            && !OverCap(limits, l.closed)
            && forall s :: s in l.closed ==> !Expired(limits, l.clock, s)
  {
    var l := Reach(limits, events);
    assert (events + [Clean])[..|events|] == events;
    Refines(limits, events);
    WrittenSorted(events);
    assert Flatten(l.closed) == Contents(l)[..|Flatten(l.closed)|];
    forall s | s in l.closed
      ensures s.records != []
    {
      var i :| 0 <= i < |l.closed| && l.closed[i] == s;
      assert Joins(l.closed, i, l.active.base);
    }
    var k := CleanerExact(limits, l.clock, l.closed);
  }

  // ---- sizes ----

  lemma {:induction false} Distribute(n: nat, each: nat)
    ensures (n + 1) * each == n * each + each
  {
  }

  lemma {:induction false} Monotone(a: nat, b: nat, size: nat)
    requires a <= b
    ensures a * size <= b * size
  {
  }

  lemma {:induction false} BytesGrow(records: seq<Record>, r: Record)
    ensures BytesOf(records + [r]) == BytesOf(records) + r.bytes
  {
    assert (records + [r])[..|records|] == records;
  }

  // The active segment is always below the roll size.
  lemma {:induction false} ActiveBelowSegmentBytes(limits: Limits, events: seq<Event>)
    requires limits.segmentBytes > 0
    ensures BytesOf(Reach(limits, events).active.records) < limits.segmentBytes
  {
    if events != [] {
      ActiveBelowSegmentBytes(limits, events[..|events| - 1]);
    }
  }

  // ---- in plain terms of ages and bytes ----

  lemma {:induction false} BytesJoin(a: seq<Record>, b: seq<Record>)
    ensures BytesOf(a + b) == BytesOf(a) + BytesOf(b)
    decreases |b|
  {
    if b == [] {
      assert a + b == a;
    } else {
      assert (a + b)[..|a + b| - 1] == a + b[..|b| - 1];
      BytesJoin(a, b[..|b| - 1]);
    }
  }

  lemma {:induction false} FlattenBytes(closed: seq<Segment>)
    ensures ClosedBytes(closed) == BytesOf(Flatten(closed))
    decreases |closed|
  {
    if closed != [] {
      FlattenBytes(closed[1..]);
      BytesJoin(closed[0].records, Flatten(closed[1..]));
    }
  }

  // The records of the oldest closed segment, by offset.
  lemma {:induction false} OldestRecords(l: Log, written: seq<Record>, o: nat)
    requires Represents(l, written) && l.closed != []
    requires Start(l) <= o < Start(l.(closed := l.closed[1..]))
    ensures o - Start(l) < |l.closed[0].records| && o < |written|
    ensures written[o] == l.closed[0].records[o - Start(l)]
  {
    ContiguousTail(l.closed, l.active.base);
    assert Contents(l)[o - Start(l)] == l.closed[0].records[o - Start(l)];
    assert written[Start(l)..][o - Start(l)] == written[o];
  }

  lemma {:induction false} CleanedWereOld(limits: Limits, l: Log, written: seq<Record>, o: nat)
    requires Represents(l, written) && Sorted(Flatten(l.closed), l.clock) && limits.retentionBytes == None
    requires Start(l) <= o < Start(l.(closed := Cleaned(limits, l.clock, l.closed)))
    ensures o < |written| && l.clock - written[o].time > limits.retentionMs
    decreases |l.closed|
  {
    if Deletes(limits, l.clock, l.closed) {
      var t := l.(closed := l.closed[1..]);
      var oldest := l.closed[0].records;
      DropRepresents(l, written);
      ContiguousTail(l.closed, l.active.base);
      assert Flatten(l.closed)[|oldest|..] == Flatten(t.closed);
      assert Flatten(l.closed)[..|oldest|] == oldest;
      if o < Start(t) {
        OldestRecords(l, written, o);
        assert oldest[o - Start(l)] == Flatten(l.closed)[o - Start(l)];
        assert oldest[|oldest| - 1] == Flatten(l.closed)[|oldest| - 1];
      } else {
        CleanedWereOld(limits, t, written, o);
      }
    }
  }

  lemma {:induction false} ClosedSorted(limits: Limits, events: seq<Event>)
    ensures var l := Reach(limits, events); Sorted(Flatten(l.closed), l.clock)
  {
    var l := Reach(limits, events);
    Refines(limits, events);
    WrittenSorted(events);
    assert Flatten(l.closed) == Contents(l)[..|Flatten(l.closed)|];
  }

  // Without a size cap, nothing is deleted before its time: whatever is gone, at any point of any run, is
  // older than the retention time.
  lemma {:induction false} NothingDeletedEarly(limits: Limits, events: seq<Event>, o: nat)
    requires limits.retentionBytes == None && o < Start(Reach(limits, events))
    ensures o < |Written(events)| && Clock(events) - Written(events)[o].time > limits.retentionMs
    decreases |events|
  {
    if events != [] {
      var before, e := events[..|events| - 1], events[|events| - 1];
      var l := Reach(limits, before);
      Refines(limits, before);
      if o < Start(l) {
        NothingDeletedEarly(limits, before, o);
      } else {
        ClosedSorted(limits, before);
        StepRepresents(limits, l, e, Written(before));
        StartMovesOnClean(limits, l, e, Written(before));
        CleanedWereOld(limits, l, Written(before), o);
      }
    }
  }

  lemma {:induction false} StartMovesOnClean(limits: Limits, l: Log, e: Event, written: seq<Record>)
    requires Represents(l, written)
    ensures !e.Clean? ==> Start(Step(limits, l, e)) == Start(l)
  {
    match e
    case Append(payload, bytes) =>
      PutRepresents(l, written, payload, bytes);
      RollRepresents(limits, Put(l, payload, bytes), written + [Record(payload, bytes, l.clock)]);
    case Wait(ms) => RollRepresents(limits, l.(clock := l.clock + ms), written);
    case Clean =>
  }

  // And nothing closed is kept beyond its time: after a cleaner pass the last record of every closed
  // segment is within the retention time, and all closed records together within the cap.
  lemma {:induction false} NothingKeptLate(limits: Limits, events: seq<Event>)
    ensures var l := Reach(limits, events + [Clean]);
            && (forall s :: s in l.closed ==>
                  s.records != [] && Clock(events) - s.records[|s.records| - 1].time <= limits.retentionMs)
            && (limits.retentionBytes.Some? ==> BytesOf(Flatten(l.closed)) <= limits.retentionBytes.value)
  {
    var l := Reach(limits, events + [Clean]);
    assert (events + [Clean])[..|events|] == events;
    CleanLeavesWithinLimits(limits, events);
    Refines(limits, events + [Clean]);
    FlattenBytes(l.closed);
    forall s | s in l.closed
      ensures s.records != []
    {
      var i :| 0 <= i < |l.closed| && l.closed[i] == s;
      assert Joins(l.closed, i, l.active.base);
    }
  }

  // Young records within the cap are left alone altogether.
  lemma {:induction false} NothingToClean(limits: Limits, events: seq<Event>)
    requires var l := Reach(limits, events);
             && (forall s :: s in l.closed && s.records != [] ==>
                   Clock(events) - s.records[|s.records| - 1].time <= limits.retentionMs)
             && (limits.retentionBytes.Some? ==> BytesOf(Flatten(l.closed)) <= limits.retentionBytes.value)
    ensures Reach(limits, events + [Clean]) == Reach(limits, events)
  {
    var l := Reach(limits, events);
    assert (events + [Clean])[..|events|] == events;
    Refines(limits, events);
    FlattenBytes(l.closed);
    assert l.closed != [] ==> l.closed[0] in l.closed;
  }
}
