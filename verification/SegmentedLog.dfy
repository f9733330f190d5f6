/**
  A partition on disk: closed segments, one active segment, rolling by size or age, and a cleaner
  that deletes the oldest closed segments by age or by size.

  Time is a natural number that only moves forward, and a record is stamped with the time of its
  append. Rolling is checked after every append and whenever time passes; an empty active segment
  never rolls, and its age counts from its first record.
  */
module SegmentedLog {
  import opened Basics

  datatype Record = Record(payload: nat, bytes: nat, time: nat)

  datatype Segment = Segment(base: nat, records: seq<Record>)

  // retentionBytes is None for the unlimited default.
  datatype Limits = Limits(segmentBytes: nat, segmentMs: nat, retentionMs: nat, retentionBytes: Option<nat>)

  datatype Log = Log(closed: seq<Segment>, active: Segment, clock: nat)

  datatype Event = Append(payload: nat, bytes: nat) | Wait(ms: nat) | Clean

  const EMPTY := Log([], Segment(0, []), 0)

  function BytesOf(records: seq<Record>): nat {
    if records == [] then 0 else BytesOf(records[..|records| - 1]) + records[|records| - 1].bytes
  }

  function ClosedBytes(closed: seq<Segment>): nat {
    if closed == [] then 0 else BytesOf(closed[0].records) + ClosedBytes(closed[1..])
  }

  function TotalBytes(l: Log): nat {
    ClosedBytes(l.closed) + BytesOf(l.active.records)
  }

  function Start(l: Log): nat {
    if l.closed == [] then l.active.base else l.closed[0].base
  }

  function End(l: Log): nat {
    l.active.base + |l.active.records|
  }

  function Flatten(closed: seq<Segment>): seq<Record> {
    if closed == [] then [] else closed[0].records + Flatten(closed[1..])
  }

  // Everything still on disk, oldest first.
  function Contents(l: Log): seq<Record> {
    Flatten(l.closed) + l.active.records
  }

  predicate MustRoll(limits: Limits, l: Log) {
    && l.active.records != []
    && (BytesOf(l.active.records) >= limits.segmentBytes
        || l.clock - l.active.records[0].time >= limits.segmentMs)
  }

  function Roll(limits: Limits, l: Log): Log {
    if MustRoll(limits, l)
    then l.(closed := l.closed + [l.active], active := Segment(End(l), []))
    else l
  }

  // Older than the retention window, judged by the segment's last record.
  predicate Expired(limits: Limits, clock: nat, s: Segment) {
    s.records != [] && clock - s.records[|s.records| - 1].time > limits.retentionMs
  }

  predicate OverCap(limits: Limits, closed: seq<Segment>) {
    limits.retentionBytes.Some? && ClosedBytes(closed) > limits.retentionBytes.value
  }

  predicate Deletes(limits: Limits, clock: nat, closed: seq<Segment>) {
    closed != [] && (Expired(limits, clock, closed[0]) || OverCap(limits, closed))
  }

  function Cleaned(limits: Limits, clock: nat, closed: seq<Segment>): seq<Segment> {
    if Deletes(limits, clock, closed) then Cleaned(limits, clock, closed[1..]) else closed
  }

  function Put(l: Log, payload: nat, bytes: nat): Log {
    l.(active := l.active.(records := l.active.records + [Record(payload, bytes, l.clock)]))
  }

  function Step(limits: Limits, l: Log, e: Event): Log {
    match e
    case Append(payload, bytes) => Roll(limits, Put(l, payload, bytes))
    case Wait(ms) => Roll(limits, l.(clock := l.clock + ms))
    case Clean => l.(closed := Cleaned(limits, l.clock, l.closed))
  }

  function Reach(limits: Limits, events: seq<Event>): Log {
    if events == [] then EMPTY
    else Step(limits, Reach(limits, events[..|events| - 1]), events[|events| - 1])
  }

  // ---- the simple log it implements: all records ever appended ----

  function Clock(events: seq<Event>): nat {
    if events == [] then 0
    else
      var e := events[|events| - 1];
      Clock(events[..|events| - 1]) + if e.Wait? then e.ms else 0
  }

  function Written(events: seq<Event>): seq<Record> {
    if events == [] then []
    else
      var before := events[..|events| - 1];
      var e := events[|events| - 1];
      Written(before) + if e.Append? then [Record(e.payload, e.bytes, Clock(before))] else []
  }
}
