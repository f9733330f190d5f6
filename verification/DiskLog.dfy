/**
  The partition's storage as a program: appends go to the active segment, which is rolled in
  place, and the cleaner loop deletes the oldest closed segment until nothing more has to go.
  */
module DiskLog {
  import opened Basics
  import opened SegmentedLog
  import opened Retention

  class Storage {
    const limits: Limits
    var closed: seq<Segment>
    var active: Segment
    var clock: nat

    ghost function View(): Log
      reads this
    {
      Log(closed, active, clock)
    }

    constructor (limits: Limits)
      ensures this.limits == limits && View() == EMPTY
    {
      this.limits := limits;
      closed, active, clock := [], Segment(0, []), 0;
    }

    method ActiveBytes() returns (total: nat)
      ensures total == BytesOf(active.records)
    {
      total := 0;
      for i := 0 to |active.records|
        invariant total == BytesOf(active.records[..i])
      {
        assert active.records[..i + 1][..i] == active.records[..i];
        total := total + active.records[i].bytes;
      }
      assert active.records[..|active.records|] == active.records;
    }

    method RollIfDue()
      modifies this
      ensures View() == Roll(limits, old(View()))
    {
      if active.records == [] { return; }
      var size := ActiveBytes();
      if size >= limits.segmentBytes || clock - active.records[0].time >= limits.segmentMs {
        closed := closed + [active];
        active := Segment(active.base + |active.records|, []);
      }
    }

    method Append(payload: nat, bytes: nat)
      modifies this
      ensures View() == Step(limits, old(View()), SegmentedLog.Append(payload, bytes))
    {
      active := active.(records := active.records + [Record(payload, bytes, clock)]);
      RollIfDue();
    }

    method Wait(ms: nat)
      modifies this
      ensures View() == Step(limits, old(View()), SegmentedLog.Wait(ms))
    {
      clock := clock + ms;
      RollIfDue();
    }

    method SizeOf(segments: seq<Segment>) returns (total: nat)
      ensures total == ClosedBytes(segments)
    {
      total := 0;
      var i := |segments|;
      while i > 0
        invariant 0 <= i <= |segments|
        invariant total == ClosedBytes(segments[i..])
      {
        i := i - 1;
        assert segments[i..][1..] == segments[i + 1..];
        var size := 0;
        for j := 0 to |segments[i].records|
          invariant size == BytesOf(segments[i].records[..j])
        {
          assert segments[i].records[..j + 1][..j] == segments[i].records[..j];
          size := size + segments[i].records[j].bytes;
        }
        assert segments[i].records[..|segments[i].records|] == segments[i].records;
        total := total + size;
      }
      assert segments[0..] == segments;
    }

    // One pass of the log cleaner.
    method RunCleaner()
      modifies this
      ensures View() == Step(limits, old(View()), Clean)
    {
      var size := SizeOf(closed);
      var done := false;
      while !done
        invariant size == ClosedBytes(closed)
        invariant active == old(active) && clock == old(clock)
        invariant Cleaned(limits, clock, closed) == Cleaned(limits, clock, old(closed))
        invariant done ==> !Deletes(limits, clock, closed)
        decreases !done, |closed|
      {
        if closed == [] {
          done := true;
        } else {
          var s := closed[0];
          var expired := s.records != [] && clock - s.records[|s.records| - 1].time > limits.retentionMs;
          var over := limits.retentionBytes.Some? && size > limits.retentionBytes.value;
          if expired || over {
            var one := SizeOf([s]);
            closed, size := closed[1..], size - one;
          } else {
            done := true;
          }
        }
      }
    }

    // Reads find the segment that covers the offset, then the record in it.
    method Read(offset: nat, ghost written: seq<Record>) returns (r: Option<Record>)
      requires Represents(View(), written)
      ensures r.Some? <==> Start(View()) <= offset < End(View())
      ensures r.Some? ==> r.value == written[offset]
    {
      var l: Log := Log(closed, active, clock);
      if active.base <= offset {
        var k := offset - active.base;
        if k < |active.records| {
          assert Contents(l)[offset - Start(l)] == active.records[k] by { FlattenLength(l); }
          return Some(active.records[k]);
        }
        return None;
      }
      var i := 0;
      while i < |closed|
        invariant 0 <= i <= |closed|
        invariant Start(l) <= offset ==> (if i < |closed| then closed[i].base else active.base) <= offset
      {
        var s := closed[i];
        assert Joins(closed, i, active.base);
        if s.base <= offset < s.base + |s.records| {
          InSegment(l, i, offset);
          return Some(s.records[offset - s.base]);
        }
        i := i + 1;
      }
      return None;
    }
  }

  // Any history of appends, pauses and cleaner runs, then one read: what comes back is the record
  // originally written at that offset, unless the offset was deleted or not yet written.
  method ReadAfter(limits: Limits, events: seq<SegmentedLog.Event>, offset: nat) returns (r: Option<Record>)
    ensures End(Reach(limits, events)) == |Written(events)|
    ensures r.Some? <==> Start(Reach(limits, events)) <= offset < End(Reach(limits, events))
    ensures r.Some? ==> r.value == Written(events)[offset]
  {
    var storage := new Storage(limits);
    for i := 0 to |events|
      invariant fresh(storage) && storage.limits == limits
      invariant storage.View() == Reach(limits, events[..i])
    {
      assert events[..i + 1][..i] == events[..i];
      match events[i]
      case Append(payload, bytes) => storage.Append(payload, bytes);
      case Wait(ms) => storage.Wait(ms);
      case Clean => storage.RunCleaner();
    }
    assert events[..|events|] == events;
    Refines(limits, events);
    r := storage.Read(offset, Written(events));
  }

  lemma {:induction false} FlattenLength(l: Log)
    requires Contiguous(l.closed, l.active.base)
    ensures |Flatten(l.closed)| == l.active.base - Start(l)
    decreases |l.closed|
  {
    if l.closed != [] {
      var t := l.(closed := l.closed[1..]);
      ContiguousTail(l.closed, l.active.base);
      FlattenLength(t);
    }
  }

  // The record a closed segment holds at an offset is the one the whole log holds there.
  lemma {:induction false} InSegment(l: Log, i: nat, offset: nat)
    requires Contiguous(l.closed, l.active.base) && i < |l.closed|
    requires l.closed[i].base <= offset < l.closed[i].base + |l.closed[i].records|
    ensures Start(l) <= offset < l.active.base
    ensures offset - Start(l) < |Contents(l)|
    ensures Contents(l)[offset - Start(l)] == l.closed[i].records[offset - l.closed[i].base]
    decreases i
  {
    FlattenLength(l);
    if i > 0 {
      var t := l.(closed := l.closed[1..]);
      ContiguousTail(l.closed, l.active.base);
      assert t.closed[i - 1] == l.closed[i];
      InSegment(t, i - 1, offset);
      assert Contents(l) == l.closed[0].records + Contents(t);
    } else if |l.closed| > 1 {
      ContiguousTail(l.closed, l.active.base);
      FlattenLength(l.(closed := l.closed[1..]));
    }
  }
}
