/** The sequenced event bus: a bounded window of recent events that stands in
    for the unbounded log of everything published. */
module EventBus {

  const RETAINED_EVENTS := 512
  const MAX_BATCH_EVENTS := 256

  /** `Notice` stands for every event that the lifecycle does not treat specially. */
  datatype BackendEvent = Ready | Shutdown | Notice(code: int)

  datatype SequencedEvent = SequencedEvent(sequence: nat, event: BackendEvent)

  datatype Bus = Bus(nextSequence: nat, retained: seq<SequencedEvent>, closed: bool)

  datatype DrainOutcome = Events(events: seq<SequencedEvent>, resyncRequired: bool) | Closed | Wait

  const EMPTY_BUS := Bus(1, [], false)

  function DropOldest(retained: seq<SequencedEvent>): seq<SequencedEvent> {
    if |retained| > RETAINED_EVENTS then retained[|retained| - RETAINED_EVENTS..] else retained
  }

  function Publish(bus: Bus, event: BackendEvent): Bus {
    if bus.closed then bus
    else Bus(bus.nextSequence + 1, DropOldest(bus.retained + [SequencedEvent(bus.nextSequence, event)]), false)
  }

  function Close(bus: Bus): Bus { bus.(closed := true) }

  function LatestSequence(bus: Bus): nat {
    if bus.nextSequence == 0 then 0 else bus.nextSequence - 1
  }

  /** The cursor position just before the oldest retained event. */
  function Horizon(bus: Bus): nat {
    var oldest := if bus.retained == [] then bus.nextSequence else bus.retained[0].sequence;
    if oldest == 0 then 0 else oldest - 1
  }

  /** The events behind `cursor`, at most `room` of them. */
  function Collect(rest: seq<SequencedEvent>, cursor: nat, room: nat): seq<SequencedEvent> {
    if rest == [] then []
    else if rest[0].sequence <= cursor then Collect(rest[1..], cursor, room)
    else if room == 0 then []
    else [rest[0]] + Collect(rest[1..], rest[0].sequence, room - 1)
  }

  lemma CollectOne(retained: seq<SequencedEvent>, index: nat, cursor: nat, room: nat)
    requires index < |retained|
    ensures var event := retained[index];
            Collect(retained[index..], cursor, room)
            == if event.sequence <= cursor then Collect(retained[index + 1..], cursor, room)
               else if room == 0 then []
               else [event] + Collect(retained[index + 1..], event.sequence, room - 1)
  {
    assert retained[index..][1..] == retained[index + 1..];
  }

  function Start(bus: Bus, cursor: nat): nat {
    if cursor < Horizon(bus) then Horizon(bus) else cursor
  }

  function Outcome(bus: Bus, cursor: nat, maxEvents: nat): DrainOutcome {
    var events := Collect(bus.retained, Start(bus, cursor), maxEvents);
    if cursor < Horizon(bus) || events != [] then Events(events, cursor < Horizon(bus))
    else if bus.closed then Closed
    else Wait
  }

  function Advance(cursor: nat, events: seq<SequencedEvent>): nat {
    if events == [] then cursor else events[|events| - 1].sequence
  }

  function NextCursor(bus: Bus, cursor: nat, maxEvents: nat): nat {
    Advance(Start(bus, cursor), Collect(bus.retained, Start(bus, cursor), maxEvents))
  }

  function Clamp(maxEvents: nat): (r: nat)
    ensures 1 <= r <= MAX_BATCH_EVENTS
    ensures r < maxEvents ==> r == MAX_BATCH_EVENTS
    ensures maxEvents < r ==> r == 1
  {
    if maxEvents < 1 then 1 else if maxEvents > MAX_BATCH_EVENTS then MAX_BATCH_EVENTS else maxEvents
  }

  // ---------------------------------------------------------------------
  // The log the bus abbreviates
  // ---------------------------------------------------------------------

  /** Events number `lo + 1` to `hi` of the log. */
  function Numbered(log: seq<BackendEvent>, lo: nat, hi: nat): (r: seq<SequencedEvent>)
    requires lo <= hi <= |log|
    ensures |r| == hi - lo
    ensures forall k :: 0 <= k < |r| ==> r[k] == SequencedEvent(lo + k + 1, log[lo + k])
  {
    seq(hi - lo, k requires 0 <= k < hi - lo => SequencedEvent(lo + k + 1, log[lo + k]))
  }

  function Evicted(log: seq<BackendEvent>): (r: nat)
    ensures r <= |log|
  {
    if |log| > RETAINED_EVENTS then |log| - RETAINED_EVENTS else 0
  }

  ghost predicate Refines(bus: Bus, log: seq<BackendEvent>) {
    && bus.nextSequence == |log| + 1
    && bus.retained == Numbered(log, Evicted(log), |log|)
  }

  function Append(bus: Bus, log: seq<BackendEvent>, event: BackendEvent): seq<BackendEvent> {
    if bus.closed then log else log + [event]
  }

  lemma PublishRefines(bus: Bus, log: seq<BackendEvent>, event: BackendEvent)
    requires Refines(bus, log)
    ensures Refines(Publish(bus, event), Append(bus, log, event))
    ensures Publish(bus, event).closed == bus.closed
  {
    if !bus.closed {
      var grown := bus.retained + [SequencedEvent(bus.nextSequence, event)];
      assert grown == Numbered(log + [event], Evicted(log), |log| + 1);
    }
  }

  /** Where `room` events starting behind `cursor` end. */
  function BatchEnd(log: seq<BackendEvent>, cursor: nat, room: nat): (r: nat)
    ensures r == cursor || (cursor <= r <= |log|)
  {
    if |log| <= cursor then cursor else if cursor + room < |log| then cursor + room else |log|
  }

  lemma NumberedHead(log: seq<BackendEvent>, lo: nat, hi: nat)
    requires lo < hi <= |log|
    ensures Numbered(log, lo, hi) == [SequencedEvent(lo + 1, log[lo])] + Numbered(log, lo + 1, hi)
    ensures Numbered(log, lo, hi)[1..] == Numbered(log, lo + 1, hi)
  {
  }

  lemma {:induction false} CollectFromLog(log: seq<BackendEvent>, lo: nat, cursor: nat, room: nat)
    requires lo <= |log| && lo <= cursor
    ensures Collect(Numbered(log, lo, |log|), cursor, room)
         == if cursor < |log| then Numbered(log, cursor, BatchEnd(log, cursor, room)) else []
    decreases |log| - lo
  {
    hide Numbered;
    NumberedEmpty(log, lo);
    if lo < |log| {
      NumberedHead(log, lo, |log|);
      if lo < cursor {
        CollectFromLog(log, lo + 1, cursor, room);
      } else if room > 0 {
        CollectFromLog(log, lo + 1, lo + 1, room - 1);
        NumberedHead(log, lo, BatchEnd(log, cursor, room));
        NumberedEmpty(log, lo + 1);
      }
    }
  }

  lemma NumberedEmpty(log: seq<BackendEvent>, lo: nat)
    requires lo <= |log|
    ensures Numbered(log, lo, lo) == []
  {
  }

  /** What a batch is, in terms of the whole log: the events right behind the
      cursor, or, when some of those were evicted, the events right behind the
      last evicted one and a flag; a resync skips exactly the evicted events. */
  lemma DrainReadsTheLog(bus: Bus, log: seq<BackendEvent>, cursor: nat, maxEvents: nat)
    requires Refines(bus, log)
    ensures var start := if cursor < Evicted(log) then Evicted(log) else cursor;
            && Horizon(bus) == Evicted(log)
            && Start(bus, cursor) == start
            && Collect(bus.retained, start, maxEvents)
               == (if start < |log| then Numbered(log, start, BatchEnd(log, start, maxEvents)) else [])
            && NextCursor(bus, cursor, maxEvents) == BatchEnd(log, start, maxEvents)
  {
    var start := if cursor < Evicted(log) then Evicted(log) else cursor;
    CollectFromLog(log, Evicted(log), start, maxEvents);
  }

  /** What a drain hands out, told from the log alone. */
  function LogOutcome(log: seq<BackendEvent>, closed: bool, cursor: nat, maxEvents: nat): DrainOutcome {
    if cursor < |log| then
      var start := if cursor < Evicted(log) then Evicted(log) else cursor;
      Events(Numbered(log, start, BatchEnd(log, start, maxEvents)), cursor < Evicted(log))
    else if closed then Closed
    else Wait
  }

  /** As long as the cursor has not passed every published event, the batch holds
      the events right behind it, or behind the evicted ones, as many as there is
      room for; and it is flagged exactly if events were evicted that the cursor
      had not passed. */
  lemma {:induction false} OutcomeReadsTheLog(bus: Bus, log: seq<BackendEvent>, cursor: nat, maxEvents: nat)
    requires Refines(bus, log) && 1 <= maxEvents
    ensures Outcome(bus, cursor, maxEvents) == LogOutcome(log, bus.closed, cursor, maxEvents)
    ensures |log| <= cursor ==> NextCursor(bus, cursor, maxEvents) == cursor
    ensures cursor < |log| ==>
              var batch := LogOutcome(log, bus.closed, cursor, maxEvents).events;
              batch != [] && NextCursor(bus, cursor, maxEvents) == batch[|batch| - 1].sequence
  {
    hide Refines, Collect;
    DrainReadsTheLog(bus, log, cursor, maxEvents);
  }

  /** Nothing is lost behind a `Closed` or a `Wait`: both mean that every
      published event has been passed by the cursor. */
  lemma QuietOnlyAtTheEnd(bus: Bus, log: seq<BackendEvent>, cursor: nat, maxEvents: nat)
    requires Refines(bus, log) && 1 <= maxEvents
    ensures Outcome(bus, cursor, maxEvents).Closed? <==> |log| <= cursor && bus.closed
    ensures Outcome(bus, cursor, maxEvents).Wait? <==> |log| <= cursor && !bus.closed
  {
    DrainReadsTheLog(bus, log, cursor, maxEvents);
  }
}
