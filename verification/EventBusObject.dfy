/** The bus with its subscribers, and a subscription's cursor, as the objects the
    program updates. */
module EventBusObject {
  import opened EventBus
  import Subs = Subscriptions

  class SharedEventBus {
    var nextSequence: nat
    var retained: seq<SequencedEvent>
    var closed: bool

    /** Every subscription ever made; the bus knows those still registered. */
    var subscriptions: seq<Subs.Subscription>

    ghost var log: seq<BackendEvent>

    ghost function Value(): Bus
      reads this
    {
      Bus(nextSequence, retained, closed)
    }

    ghost function State(): Subs.World
      reads this
    {
      Subs.World(Value(), log, subscriptions)
    }

    ghost predicate Valid()
      reads this
    {
      Refines(Value(), log)
    }

    constructor ()
      ensures Valid() && State() == Subs.BEGIN
    {
      nextSequence, retained, closed := 1, [], false;
      subscriptions, log := [], [];
    }

    /** A wake-up is on its way to everyone who is registered. */
    method NotifyAll()
      modifies this`subscriptions
      ensures subscriptions == Subs.WakeAll(old(subscriptions))
    {
      for i := 0 to |subscriptions|
        invariant |subscriptions| == |old(subscriptions)|
        invariant forall k :: 0 <= k < i ==> subscriptions[k] == Subs.Wake(old(subscriptions)[k])
        invariant forall k :: i <= k < |subscriptions| ==> subscriptions[k] == old(subscriptions)[k]
      {
        if subscriptions[i].registered {
          subscriptions := subscriptions[i := subscriptions[i].(wakeUps := subscriptions[i].wakeUps + 1)];
        }
      }
    }

    method Subscribe(since: nat) returns (who: nat)
      requires Valid()
      modifies this`subscriptions
      ensures Valid() && who == |old(subscriptions)|
      ensures State() == Subs.Next(old(State()), Subs.DoSubscribe(since))
    {
      who := |subscriptions|;
      subscriptions := subscriptions + [Subs.Subscription(since, since, [], false, true, false, 0, Subs.Outside)];
    }

    method PublishEvent(event: BackendEvent)
      requires Valid()
      modifies this
      ensures Valid() && Value() == Publish(old(Value()), event)
      ensures log == Append(old(Value()), old(log), event)
      ensures State() == Subs.Next(old(State()), Subs.DoPublish(event))
    {
      hide Refines;
      PublishRefines(Value(), log, event);
      if closed {
        return;
      }
      ghost var was := retained;
      var sequence := nextSequence;
      nextSequence := nextSequence + 1;
      retained := retained + [SequencedEvent(sequence, event)];
      ghost var grown := retained;
      while |retained| > RETAINED_EVENTS
        invariant |retained| <= |grown| && retained == grown[|grown| - |retained|..]
        invariant |retained| == |grown| || |retained| >= RETAINED_EVENTS
        invariant nextSequence == sequence + 1 && !closed && log == old(log) && subscriptions == old(subscriptions)
      {
        ghost var kept := |retained| - 1;
        assert grown[|grown| - |retained|..][1..] == grown[|grown| - kept..];
        retained := retained[1..];
      }
      assert retained == DropOldest(grown);
      log := log + [event];
      NotifyAll();
    }

    /** Closes the bus once; everyone registered is woken and forgotten. */
    method CloseBus()
      requires Valid()
      modifies this
      ensures Valid() && Value() == Close(old(Value())) && log == old(log)
      ensures State() == Subs.Next(old(State()), Subs.DoClose)
    {
      if closed {
        return;
      }
      closed := true;
      NotifyAll();
      ghost var woken := subscriptions;
      for i := 0 to |subscriptions|
        invariant |subscriptions| == |woken| && nextSequence == old(nextSequence) && retained == old(retained)
        invariant closed && log == old(log)
        invariant forall k :: 0 <= k < i ==> subscriptions[k] == woken[k].(registered := false)
        invariant forall k :: i <= k < |subscriptions| ==> subscriptions[k] == woken[k]
      {
        subscriptions := subscriptions[i := subscriptions[i].(registered := false)];
      }
      assert subscriptions == Subs.Unregister(woken);
    }

    method Latest() returns (sequence: nat)
      requires Valid()
      ensures sequence == |log|
    {
      sequence := if nextSequence <= 1 then 0 else nextSequence - 1;
    }

    /** The retained events behind `start`, and where the last of them is. */
    method CollectRetained(start: nat, maxEvents: nat) returns (events: seq<SequencedEvent>, moved: nat)
      ensures events == Collect(retained, start, maxEvents) && moved == Advance(start, events)
    {
      events, moved := [], start;
      var index := 0;
      ghost var all := Collect(retained, start, maxEvents);
      assert retained[0..] == retained && all == [] + all;
      while index < |retained|
        invariant 0 <= index <= |retained|
        invariant |events| <= maxEvents && moved == Advance(start, events)
        invariant all == events + Collect(retained[index..], moved, maxEvents - |events|)
      {
        CollectOne(retained, index, moved, maxEvents - |events|);
        var event := retained[index];
        index := index + 1;
        if event.sequence <= moved {
          continue;
        }
        if |events| >= maxEvents {
          return;
        }
        events := events + [event];
        moved := event.sequence;
      }
    }

    /** One look at the bus on behalf of a cursor. */
    method Drain(cursor: nat, maxEvents: nat) returns (outcome: DrainOutcome, moved: nat)
      requires Valid()
      ensures outcome == Outcome(Value(), cursor, maxEvents) && moved == NextCursor(Value(), cursor, maxEvents)
      ensures 1 <= maxEvents ==> outcome == LogOutcome(log, closed, cursor, maxEvents)
      ensures 1 <= maxEvents && cursor < |log| ==>
                outcome.events != [] && moved == outcome.events[|outcome.events| - 1].sequence
      ensures 1 <= maxEvents && |log| <= cursor ==> moved == cursor
    {
      hide Refines, Collect, LogOutcome;
      if 1 <= maxEvents {
        OutcomeReadsTheLog(Value(), log, cursor, maxEvents);
      }
      var oldest := if retained == [] then nextSequence else retained[0].sequence;
      var horizon := if oldest == 0 then 0 else oldest - 1;
      var start, resyncRequired := cursor, false;
      if start < horizon {
        start, resyncRequired := horizon, true;
      }
      var events: seq<SequencedEvent>;
      events, moved := CollectRetained(start, maxEvents);
      if resyncRequired || events != [] {
        return Events(events, resyncRequired), moved;
      }
      outcome := if closed then Closed else Wait;
    }
  }
}
