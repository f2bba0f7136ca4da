/** Subscriptions: every interleaving of publishing, closing, subscribing,
    cancelling and one consumer per subscription, with the stored permit of its
    `Notify`. A wake-up is sent after the bus lock is released, so it is a step
    of its own. */
module Subscriptions {
  import opened EventBus

  /** What a subscriber was handed, in order. */
  datatype Item = Got(event: SequencedEvent) | Lost(after: nat, upTo: nat)

  /** What one call to `next_batch` answered. */
  datatype Answer = Batch(events: seq<SequencedEvent>, resyncRequired: bool) | Ended

  /** Where a consumer stands inside `next_batch`. */
  datatype Stage = Outside | Entered | Uncancelled | AboutToWait | Parked

  datatype Subscription = Subscription(
    since: nat,
    cursor: nat,
    answers: seq<Answer>,
    cancelled: bool,
    registered: bool,
    permit: bool,
    wakeUps: nat,
    stage: Stage)

  datatype World = World(bus: Bus, log: seq<BackendEvent>, subscriptions: seq<Subscription>)

  const BEGIN := World(EMPTY_BUS, [], [])

  datatype Action =
    | DoPublish(event: BackendEvent)
    | DoClose
    | DoSubscribe(since: nat)
    | DoCancel(who: nat)
    | DeliverWakeUp(who: nat)
    | Enter(who: nat)
    | CheckCancelled(who: nat)
    | DrainBus(who: nat, maxEvents: nat)
    | GiveUpWaiting(who: nat)
    | AwaitWakeUp(who: nat)
    | TimeOut(who: nat)

  // What a consumer can tell from the answers alone, having started behind `since`.

  function ItemsIn(answer: Answer, cursor: nat): seq<Item> {
    match answer
    case Ended => []
    case Batch(events, resyncRequired) =>
      (if resyncRequired && events != [] && events[0].sequence > 0 then [Lost(cursor, events[0].sequence - 1)] else [])
      + GotAll(events)
  }

  function CursorAfter(since: nat, answers: seq<Answer>): nat {
    if answers == [] then since
    else
      var before, last := CursorAfter(since, answers[..|answers| - 1]), answers[|answers| - 1];
      if last.Batch? then Advance(before, last.events) else before
  }

  function Told(since: nat, answers: seq<Answer>): seq<Item> {
    if answers == [] then []
    else
      var before, last := answers[..|answers| - 1], answers[|answers| - 1];
      Told(since, before) + ItemsIn(last, CursorAfter(since, before))
  }

  lemma ToldSnoc(since: nat, answers: seq<Answer>, answer: Answer)
    ensures Told(since, answers + [answer]) == Told(since, answers) + ItemsIn(answer, CursorAfter(since, answers))
    ensures CursorAfter(since, answers + [answer]) ==
            if answer.Batch? then Advance(CursorAfter(since, answers), answer.events) else CursorAfter(since, answers)
  {
    var all := answers + [answer];
    assert all[..|all| - 1] == answers;
  }

  /** A drain ends the call, or sends it waiting. */
  function Drained(s: Subscription, outcome: DrainOutcome): Subscription {
    match outcome
    case Events(events, resync) => s.(answers := s.answers + [Batch(events, resync)], stage := Outside)
    case Closed => s.(answers := s.answers + [Ended], stage := Outside)
    case Wait => s.(stage := AboutToWait)
  }

  function GotAll(events: seq<SequencedEvent>): (r: seq<Item>)
    ensures |r| == |events| && forall k :: 0 <= k < |r| ==> r[k] == Got(events[k])
  {
    seq(|events|, k requires 0 <= k < |events| => Got(events[k]))
  }

  function Wake(s: Subscription): Subscription {
    if s.registered then s.(wakeUps := s.wakeUps + 1) else s
  }

  function WakeAll(subscriptions: seq<Subscription>): (r: seq<Subscription>)
    ensures |r| == |subscriptions|
    ensures forall k :: 0 <= k < |r| ==> r[k] == Wake(subscriptions[k])
  {
    seq(|subscriptions|, k requires 0 <= k < |subscriptions| => Wake(subscriptions[k]))
  }

  function Unregister(subscriptions: seq<Subscription>): (r: seq<Subscription>)
    ensures |r| == |subscriptions|
    ensures forall k :: 0 <= k < |r| ==> r[k] == subscriptions[k].(registered := false)
  {
    seq(|subscriptions|, k requires 0 <= k < |subscriptions| => subscriptions[k].(registered := false))
  }

  /** The effect of a step on the one subscription it concerns. */
  function Own(s: Subscription, bus: Bus, a: Action): Subscription {
    match a
    case DoCancel(_) => if s.cancelled then s else s.(cancelled := true, wakeUps := s.wakeUps + 1)
    case DeliverWakeUp(_) =>
      if s.wakeUps == 0 then s
      else if s.stage.Parked? then s.(wakeUps := s.wakeUps - 1, stage := Entered)
      else s.(wakeUps := s.wakeUps - 1, permit := true)
    case Enter(_) => if s.stage.Outside? then s.(stage := Entered) else s
    case CheckCancelled(_) =>
      if !s.stage.Entered? then s
      else if s.cancelled then s.(answers := s.answers + [Ended], stage := Outside)
      else s.(stage := Uncancelled)
    case DrainBus(_, maxEvents) =>
      if !s.stage.Uncancelled? then s
      else
        var outcome := Outcome(bus, s.cursor, Clamp(maxEvents));
        Drained(s, outcome).(cursor := NextCursor(bus, s.cursor, Clamp(maxEvents)))
    // The deadline has passed: an empty batch.
    case GiveUpWaiting(_) =>
      if s.stage.AboutToWait? then s.(answers := s.answers + [Batch([], false)], stage := Outside) else s
    case AwaitWakeUp(_) =>
      if !s.stage.AboutToWait? then s
      else if s.permit then s.(permit := false, stage := Entered)
      else s.(stage := Parked)
    case TimeOut(_) => if s.stage.Parked? then s.(stage := Entered) else s
    case _ => s
  }

  function Update(w: World, who: nat, a: Action): World {
    if who < |w.subscriptions| then
      w.(subscriptions := w.subscriptions[who := Own(w.subscriptions[who], w.bus, a)])
    else w
  }

  function Next(w: World, a: Action): World {
    match a
    case DoPublish(event) =>
      if w.bus.closed then w
      else World(Publish(w.bus, event), w.log + [event], WakeAll(w.subscriptions))
    case DoClose =>
      if w.bus.closed then w
      else w.(bus := Close(w.bus), subscriptions := Unregister(WakeAll(w.subscriptions)))
    case DoSubscribe(since) =>
      w.(subscriptions := w.subscriptions + [Subscription(since, since, [], false, true, false, 0, Outside)])
    case DoCancel(who) => Update(w, who, a)
    case DeliverWakeUp(who) => Update(w, who, a)
    case Enter(who) => Update(w, who, a)
    case CheckCancelled(who) => Update(w, who, a)
    case DrainBus(who, _) => Update(w, who, a)
    case GiveUpWaiting(who) => Update(w, who, a)
    case AwaitWakeUp(who) => Update(w, who, a)
    case TimeOut(who) => Update(w, who, a)
  }

  function Run(w: World, actions: seq<Action>): World
    decreases |actions|
  {
    if actions == [] then w else Run(Next(w, actions[0]), actions[1..])
  }

  // ---------------------------------------------------------------------
  // Delivery
  // ---------------------------------------------------------------------

  /** The items account for every number from `start + 1` to `end`, in order and
      once each: as the logged event, or inside a reported gap. */
  ghost predicate Tiles(items: seq<Item>, start: nat, end: nat, log: seq<BackendEvent>) {
    if items == [] then start == end
    else
      var rest, last := items[..|items| - 1], items[|items| - 1];
      match last
      case Got(event) =>
        1 <= end <= |log| && event == SequencedEvent(end, log[end - 1]) && Tiles(rest, start, end - 1, log)
      case Lost(after, upTo) => after < upTo == end <= |log| && Tiles(rest, start, after, log)
  }

  lemma {:induction false} TilesGrow(items: seq<Item>, start: nat, end: nat, log: seq<BackendEvent>,
      more: seq<BackendEvent>)
    requires Tiles(items, start, end, log)
    ensures Tiles(items, start, end, log + more)
    decreases |items|
  {
    if items != [] {
      match items[|items| - 1]
      case Got(event) => TilesGrow(items[..|items| - 1], start, end - 1, log, more);
      case Lost(after, upTo) => TilesGrow(items[..|items| - 1], start, after, log, more);
    }
  }

  lemma {:induction false} TilesAppendEvents(items: seq<Item>, start: nat, lo: nat, hi: nat, log: seq<BackendEvent>)
    requires Tiles(items, start, lo, log) && lo <= hi <= |log|
    ensures Tiles(items + GotAll(Numbered(log, lo, hi)), start, hi, log)
    decreases hi - lo
  {
    var all := items + GotAll(Numbered(log, lo, hi));
    if lo == hi {
      assert all == items;
    } else {
      TilesAppendEvents(items, start, lo, hi - 1, log);
      assert all[..|all| - 1] == items + GotAll(Numbered(log, lo, hi - 1));
      assert all[|all| - 1] == Got(SequencedEvent(hi, log[hi - 1]));
    }
  }

  /** One batch extends the account up to the new cursor. */
  lemma BatchTiles(bus: Bus, log: seq<BackendEvent>, items: seq<Item>, start: nat, cursor: nat, maxEvents: nat)
    requires Refines(bus, log) && 1 <= maxEvents && Tiles(items, start, cursor, log)
    requires Outcome(bus, cursor, maxEvents).Events?
    ensures var outcome := Outcome(bus, cursor, maxEvents);
            && NextCursor(bus, cursor, maxEvents) == Advance(cursor, outcome.events)
            && Tiles(items + ItemsIn(Batch(outcome.events, outcome.resyncRequired), cursor), start,
                     Advance(cursor, outcome.events), log)
  {
    hide Refines, Tiles, Collect, Outcome, NextCursor;
    OutcomeReadsTheLog(bus, log, cursor, maxEvents);
    var outcome := Outcome(bus, cursor, maxEvents);
    var from := if cursor < Evicted(log) then Evicted(log) else cursor;
    var gap := if cursor < Evicted(log) then [Lost(cursor, from)] else [];
    if gap == [] {
      assert items + gap == items;
    }
    var end := BatchEnd(log, from, maxEvents);
    TilesAppendEvents(items + gap, start, from, end, log);
    assert items + ItemsIn(Batch(outcome.events, outcome.resyncRequired), cursor)
        == items + gap + GotAll(Numbered(log, from, end));
  }

  // ---------------------------------------------------------------------
  // Invariants
  // ---------------------------------------------------------------------

  ghost predicate WakeUpComing(s: Subscription) { s.permit || s.wakeUps > 0 }

  /** A drain in this state would find nothing and not end the subscription. */
  ghost predicate NothingToSee(w: World, s: Subscription) {
    |w.log| <= s.cursor && !w.bus.closed
  }

  ghost predicate SubscriptionInv(w: World, s: Subscription) {
    && s.cursor == CursorAfter(s.since, s.answers)
    && Tiles(Told(s.since, s.answers), s.since, s.cursor, w.log)
    && (Ended in s.answers ==> s.cancelled || (w.bus.closed && |w.log| <= s.cursor))
    && (!s.registered ==> w.bus.closed)
    && (s.stage.Parked? ==> !s.permit)
    && (s.cancelled && !s.stage.Outside? && !s.stage.Entered? ==> WakeUpComing(s))
    && ((s.stage.AboutToWait? || s.stage.Parked?) && !NothingToSee(w, s) ==> WakeUpComing(s))
  }

  ghost predicate Inv(w: World) {
    && Refines(w.bus, w.log)
    && forall k :: 0 <= k < |w.subscriptions| ==> SubscriptionInv(w, w.subscriptions[k])
  }

  lemma PublishKeepsSubscription(w: World, event: BackendEvent, s: Subscription)
    requires SubscriptionInv(w, s) && !w.bus.closed
    ensures SubscriptionInv(Next(w, DoPublish(event)), Wake(s))
  {
    TilesGrow(Told(s.since, s.answers), s.since, s.cursor, w.log, [event]);
  }

  lemma CloseKeepsSubscription(w: World, s: Subscription)
    requires SubscriptionInv(w, s) && !w.bus.closed
    ensures SubscriptionInv(Next(w, DoClose), Wake(s).(registered := false))
  {
  }

  /** An answer extends what was told. */
  lemma AnswerTiles(bus: Bus, log: seq<BackendEvent>, s: Subscription, maxEvents: nat)
    requires Refines(bus, log) && 1 <= maxEvents
    requires s.cursor == CursorAfter(s.since, s.answers) && Tiles(Told(s.since, s.answers), s.since, s.cursor, log)
    ensures var next := Drained(s, Outcome(bus, s.cursor, maxEvents)).(cursor := NextCursor(bus, s.cursor, maxEvents));
            && next.cursor == CursorAfter(next.since, next.answers)
            && Tiles(Told(next.since, next.answers), next.since, next.cursor, log)
  {
    hide Refines, Tiles, NextCursor, Outcome, Told, CursorAfter, ItemsIn;
    var outcome := Outcome(bus, s.cursor, maxEvents);
    OutcomeReadsTheLog(bus, log, s.cursor, maxEvents);
    match outcome
    case Events(events, resync) =>
      BatchTiles(bus, log, Told(s.since, s.answers), s.since, s.cursor, maxEvents);
      ToldSnoc(s.since, s.answers, Batch(events, resync));
    case _ => SayNothing(s.since, s.answers, Ended);
  }

  /** Answers without events tell nothing. */
  lemma SayNothing(since: nat, answers: seq<Answer>, answer: Answer)
    requires answer == Ended || answer == Batch([], false)
    ensures Told(since, answers + [answer]) == Told(since, answers)
    ensures CursorAfter(since, answers + [answer]) == CursorAfter(since, answers)
  {
    ToldSnoc(since, answers, answer);
    assert Told(since, answers) + [] == Told(since, answers);
  }

  lemma {:induction false} OwnStepKeepsSubscription(w: World, s: Subscription, a: Action)
    requires Refines(w.bus, w.log) && SubscriptionInv(w, s)
    ensures SubscriptionInv(w, Own(s, w.bus, a))
  {
    hide Refines, Tiles, Told, CursorAfter, NextCursor, Outcome, Clamp;
    SayNothing(s.since, s.answers, Ended);
    SayNothing(s.since, s.answers, Batch([], false));
    if a.DrainBus? && s.stage.Uncancelled? {
      var max := Clamp(a.maxEvents);
      AnswerTiles(w.bus, w.log, s, max);
      QuietOnlyAtTheEnd(w.bus, w.log, s.cursor, max);
      DrainOnlyAdvances(w.bus, w.log, s.cursor, max);
    }
  }

  lemma DrainOnlyAdvances(bus: Bus, log: seq<BackendEvent>, cursor: nat, maxEvents: nat)
    requires Refines(bus, log)
    ensures cursor <= NextCursor(bus, cursor, maxEvents)
  {
    DrainReadsTheLog(bus, log, cursor, maxEvents);
  }

  lemma StepKeepsInv(w: World, a: Action)
    requires Inv(w)
    ensures Inv(Next(w, a))
  {
    hide Refines, SubscriptionInv, Own;
    var w' := Next(w, a);
    PublishedStillRefines(w, a);
    forall k | 0 <= k < |w'.subscriptions| ensures SubscriptionInv(w', w'.subscriptions[k]) {
      if k < |w.subscriptions| {
        var s := w.subscriptions[k];
        match a
        case DoPublish(event) => if !w.bus.closed { PublishKeepsSubscription(w, event, s); }
        case DoClose => if !w.bus.closed { CloseKeepsSubscription(w, s); }
        case DoSubscribe(_) => SameWorldForSubscription(w, w', s);
        case _ =>
          OwnStepKeepsSubscription(w, s, a);
          SameWorldForSubscription(w, w', s);
          SameWorldForSubscription(w, w', Own(s, w.bus, a));
      } else {
        NewSubscriptionInv(w', a.since);
      }
    }
  }

  lemma PublishedStillRefines(w: World, a: Action)
    requires Refines(w.bus, w.log)
    ensures Refines(Next(w, a).bus, Next(w, a).log)
  {
    if a.DoPublish? {
      PublishRefines(w.bus, w.log, a.event);
    }
  }

  lemma SameWorldForSubscription(w: World, w': World, s: Subscription)
    requires w.bus == w'.bus && w.log == w'.log
    ensures SubscriptionInv(w, s) <==> SubscriptionInv(w', s)
  {
  }

  lemma NewSubscriptionInv(w: World, since: nat)
    ensures SubscriptionInv(w, Subscription(since, since, [], false, true, false, 0, Outside))
  {
  }

  lemma {:induction false} RunKeepsInv(w: World, actions: seq<Action>)
    requires Inv(w)
    ensures Inv(Run(w, actions))
    decreases |actions|
  {
    if actions != [] {
      StepKeepsInv(w, actions[0]);
      RunKeepsInv(Next(w, actions[0]), actions[1..]);
    }
  }

  // ---------------------------------------------------------------------
  // Guarantees
  // ---------------------------------------------------------------------

  /** Delivery refines the unbounded log: in every run the answers a subscription
      got hold every event behind its starting point up to its cursor, in order and
      once each, except for gaps that were reported as such. */
  lemma DeliveryRefinesTheLog(actions: seq<Action>, who: nat)
    ensures var w := Run(BEGIN, actions);
            who < |w.subscriptions| ==>
              var s := w.subscriptions[who];
              s.cursor == CursorAfter(s.since, s.answers) && Tiles(Told(s.since, s.answers), s.since, s.cursor, w.log)
  {
    RunKeepsInv(BEGIN, actions);
  }

  /** No wake-up is lost: a consumer that is parked, with no permit stored and no
      wake-up on its way, has nothing to see and was not cancelled. */
  lemma NoLostWakeUp(actions: seq<Action>, who: nat)
    ensures var w := Run(BEGIN, actions);
            who < |w.subscriptions| && w.subscriptions[who].stage.Parked? && !WakeUpComing(w.subscriptions[who]) ==>
              && !w.subscriptions[who].cancelled
              && forall maxEvents :: Outcome(w.bus, w.subscriptions[who].cursor, Clamp(maxEvents)).Wait?
  {
    RunKeepsInv(BEGIN, actions);
    var w := Run(BEGIN, actions);
    if who < |w.subscriptions| {
      var s := w.subscriptions[who];
      forall maxEvents {
        QuietOnlyAtTheEnd(w.bus, w.log, s.cursor, Clamp(maxEvents));
      }
    }
  }

  /** A subscription is told that it has ended only once it was cancelled, or once
      the bus is closed and everything published was delivered or reported lost,
      however far behind the consumer was. */
  lemma ClosedComesLast(actions: seq<Action>, who: nat)
    ensures var w := Run(BEGIN, actions);
            who < |w.subscriptions| && Ended in w.subscriptions[who].answers ==>
              var s := w.subscriptions[who];
              || s.cancelled
              || (w.bus.closed && |w.log| <= s.cursor && Tiles(Told(s.since, s.answers), s.since, s.cursor, w.log))
  {
    RunKeepsInv(BEGIN, actions);
  }

  /** The numbers a tiling delivers. */
  function Delivered(items: seq<Item>): seq<nat> {
    if items == [] then []
    else
      var last := items[|items| - 1];
      Delivered(items[..|items| - 1]) + (if last.Got? then [last.event.sequence] else [])
  }

  /** A tiling never delivers twice or out of order. */
  lemma {:induction false} TilesAreOrdered(items: seq<Item>, start: nat, end: nat, log: seq<BackendEvent>)
    requires Tiles(items, start, end, log)
    ensures start <= end
    ensures forall i, j :: 0 <= i < j < |Delivered(items)| ==> Delivered(items)[i] < Delivered(items)[j]
    ensures forall i :: 0 <= i < |Delivered(items)| ==> start < Delivered(items)[i] <= end
    decreases |items|
  {
    if items != [] {
      match items[|items| - 1]
      case Got(event) => TilesAreOrdered(items[..|items| - 1], start, end - 1, log);
      case Lost(after, upTo) => TilesAreOrdered(items[..|items| - 1], start, after, log);
    }
  }

  // ---------------------------------------------------------------------
  // The end of a subscription
  // ---------------------------------------------------------------------

  /** A consumer who is not between the check and its answer. */
  predicate MustLook(s: Subscription) {
    s.cancelled && (s.stage.Outside? || s.stage.Entered?)
  }

  /** `later` got nothing more than `s`, and was told that it is over. */
  predicate OnlyEnded(s: Subscription, later: Subscription) {
    && later.cursor == s.cursor
    && s.answers <= later.answers
    && forall k :: |s.answers| <= k < |later.answers| ==> later.answers[k].Ended?
  }

  lemma StepAfterCancel(w: World, a: Action, who: nat)
    requires who < |w.subscriptions| && MustLook(w.subscriptions[who])
    ensures who < |Next(w, a).subscriptions|
    ensures MustLook(Next(w, a).subscriptions[who])
    ensures OnlyEnded(w.subscriptions[who], Next(w, a).subscriptions[who])
  {
    hide Outcome, NextCursor;
  }

  /** A cancellation is final: whatever follows, every call that had not looked
      yet when it happened, and every later one, answers that the subscription has
      ended, and nothing more is handed out. */
  lemma {:induction false} CancelledForGood(w: World, who: nat, actions: seq<Action>)
    requires who < |w.subscriptions| && MustLook(w.subscriptions[who])
    ensures who < |Run(w, actions).subscriptions|
    ensures OnlyEnded(w.subscriptions[who], Run(w, actions).subscriptions[who])
    decreases |actions|
  {
    hide Next;
    if actions != [] {
      StepAfterCancel(w, actions[0], who);
      CancelledForGood(Next(w, actions[0]), who, actions[1..]);
    }
  }

  /** And every subscription can be cancelled at any time. */
  lemma CancelTakes(w: World, who: nat)
    requires who < |w.subscriptions|
    ensures Next(w, DoCancel(who)).subscriptions[who].cancelled
    ensures w.subscriptions[who].stage.Outside? ==> MustLook(Next(w, DoCancel(who)).subscriptions[who])
  {
  }

  // ---------------------------------------------------------------------
  // A call's way to its answer
  // ---------------------------------------------------------------------

  /** One turn of a consumer: it takes a wake-up, if one is on its way, and goes on
      from where it stands, up to the drain. */
  function Turn(who: nat, maxEvents: nat): seq<Action> {
    [DeliverWakeUp(who)] + [AwaitWakeUp(who)] + [CheckCancelled(who)] + [DrainBus(who, maxEvents)]
  }

  function Turned(s: Subscription, bus: Bus, who: nat, maxEvents: nat): Subscription {
    var awake := Own(Own(s, bus, DeliverWakeUp(who)), bus, AwaitWakeUp(who));
    Own(Own(awake, bus, CheckCancelled(who)), bus, DrainBus(who, maxEvents))
  }

  lemma OwnStep(w: World, who: nat, s: Subscription, a: Action, more: seq<Action>)
    requires who < |w.subscriptions| && w.subscriptions[who] == s
    requires a in {DeliverWakeUp(who), AwaitWakeUp(who), CheckCancelled(who)} || (a.DrainBus? && a.who == who)
    ensures Run(w, [a] + more) == Run(w.(subscriptions := w.subscriptions[who := Own(s, w.bus, a)]), more)
  {
    hide Own;
    RunOne(w, a, more);
  }

  lemma Rewritten(w: World, who: nat, one: Subscription, two: Subscription)
    requires who < |w.subscriptions|
    ensures w.subscriptions[who := one][who := two] == w.subscriptions[who := two]
  {
  }

  lemma TurnIsOwn(w: World, who: nat, maxEvents: nat, more: seq<Action>)
    requires who < |w.subscriptions|
    ensures var turned := Turned(w.subscriptions[who], w.bus, who, maxEvents);
            Run(w, Turn(who, maxEvents) + more) == Run(w.(subscriptions := w.subscriptions[who := turned]), more)
  {
    hide Own, Run, Next;
    var a, b, c, d := DeliverWakeUp(who), AwaitWakeUp(who), CheckCancelled(who), DrainBus(who, maxEvents);
    assert Turn(who, maxEvents) + more == [a] + ([b] + ([c] + ([d] + more)));
    var s := w.subscriptions[who];
    var one := Own(s, w.bus, a);
    var two := Own(one, w.bus, b);
    var three := Own(two, w.bus, c);
    var four := Own(three, w.bus, d);
    OwnStep(w, who, s, a, [b] + ([c] + ([d] + more)));
    OwnStep(w.(subscriptions := w.subscriptions[who := one]), who, one, b, [c] + ([d] + more));
    Rewritten(w, who, one, two);
    OwnStep(w.(subscriptions := w.subscriptions[who := two]), who, two, c, [d] + more);
    Rewritten(w, who, two, three);
    OwnStep(w.(subscriptions := w.subscriptions[who := three]), who, three, d, more);
    Rewritten(w, who, three, four);
  }

  lemma RunOne(w: World, a: Action, more: seq<Action>)
    ensures Run(w, [a] + more) == Run(Next(w, a), more)
  {
    assert ([a] + more)[1..] == more;
  }

  /** What a call answers that has something to see: the events, or the end. Only a
      consumer that had checked before the cancellation is still handed events. */
  function Due(w: World, s: Subscription, maxEvents: nat): Answer {
    match LogOutcome(w.log, w.bus.closed, s.cursor, Clamp(maxEvents))
    case Events(events, resync) =>
      if s.cancelled && !s.stage.Uncancelled? then Ended else Batch(events, resync)
    case _ => Ended
  }

  predicate SomethingToSee(w: World, s: Subscription) {
    s.cancelled || w.bus.closed || s.cursor < |w.log|
  }

  /** No call hangs: in every run, a call that has something to see gets to its
      answer by its own steps, without waiting for its timeout, and answers once. */
  lemma {:induction false} CallsGetTheirAnswer(actions: seq<Action>, who: nat, maxEvents: nat)
    ensures var w := Run(BEGIN, actions);
            who < |w.subscriptions| && !w.subscriptions[who].stage.Outside?
            && SomethingToSee(w, w.subscriptions[who]) ==>
              var s := w.subscriptions[who];
              var later := Run(w, Turn(who, maxEvents) + Turn(who, maxEvents));
              && later.bus == w.bus && later.log == w.log && |later.subscriptions| == |w.subscriptions|
              && later.subscriptions[who].stage.Outside?
              && later.subscriptions[who].answers == s.answers + [Due(w, s, maxEvents)]
  {
    hide Own, Next, Turn, Turned, Due;
    RunKeepsInv(BEGIN, actions);
    var w := Run(BEGIN, actions);
    if who < |w.subscriptions| && !w.subscriptions[who].stage.Outside? && SomethingToSee(w, w.subscriptions[who]) {
      var s := w.subscriptions[who];
      TwoTurns(w, s, who, maxEvents);
      var turned := Turned(s, w.bus, who, maxEvents);
      var next := w.(subscriptions := w.subscriptions[who := turned]);
      TurnIsOwn(w, who, maxEvents, Turn(who, maxEvents));
      assert Turn(who, maxEvents) + [] == Turn(who, maxEvents);
      TurnIsOwn(next, who, maxEvents, []);
    }
  }

  predicate SameNews(s: Subscription, next: Subscription) {
    next.answers == s.answers && next.cursor == s.cursor && next.cancelled == s.cancelled
  }

  /** A consumer that waits is woken. */
  lemma Awakens(s: Subscription, bus: Bus, who: nat)
    requires (s.stage.AboutToWait? || s.stage.Parked?) && WakeUpComing(s) && (s.stage.Parked? ==> !s.permit)
    ensures var awake := Own(Own(s, bus, DeliverWakeUp(who)), bus, AwaitWakeUp(who));
            awake.stage.Entered? && SameNews(s, awake)
  {
  }

  /** One that does not is left alone, but keeps the wake-up. */
  lemma StaysAwake(s: Subscription, bus: Bus, who: nat)
    requires !s.stage.AboutToWait? && !s.stage.Parked?
    ensures var awake := Own(Own(s, bus, DeliverWakeUp(who)), bus, AwaitWakeUp(who));
            awake.stage == s.stage && SameNews(s, awake) && (WakeUpComing(s) ==> awake.permit)
  {
  }

  lemma Looks(w: World, s: Subscription, who: nat, maxEvents: nat)
    requires Refines(w.bus, w.log) && SomethingToSee(w, s) && s.stage.Entered?
    ensures var looked := Own(Own(s, w.bus, CheckCancelled(who)), w.bus, DrainBus(who, maxEvents));
            looked.stage.Outside? && looked.answers == s.answers + [Due(w, s, maxEvents)]
  {
    hide Refines, NextCursor, Outcome, Clamp;
    OutcomeReadsTheLog(w.bus, w.log, s.cursor, Clamp(maxEvents));
  }

  /** Behind the check it looks all the same, and waits only if just cancelled. */
  lemma LooksUncancelled(w: World, s: Subscription, who: nat, maxEvents: nat)
    requires Refines(w.bus, w.log) && SomethingToSee(w, s) && s.stage.Uncancelled?
    ensures var looked := Own(Own(s, w.bus, CheckCancelled(who)), w.bus, DrainBus(who, maxEvents));
            if looked.stage.Outside? then looked.answers == s.answers + [Due(w, s, maxEvents)]
            else
              && looked.stage.AboutToWait? && s.cancelled && SameNews(s, looked) && looked.permit == s.permit
              && Due(w, s, maxEvents) == Ended
  {
    hide Refines, NextCursor, Outcome, Clamp;
    OutcomeReadsTheLog(w.bus, w.log, s.cursor, Clamp(maxEvents));
  }

  lemma RestsOutside(s: Subscription, bus: Bus, who: nat, maxEvents: nat)
    requires s.stage.Outside?
    ensures var turned := Turned(s, bus, who, maxEvents);
            turned.stage.Outside? && turned.answers == s.answers
  {
    hide Outcome, NextCursor;
  }

  lemma TwoTurns(w: World, s: Subscription, who: nat, maxEvents: nat)
    requires Refines(w.bus, w.log) && SubscriptionInv(w, s)
    requires !s.stage.Outside? && SomethingToSee(w, s)
    ensures var twice := Turned(Turned(s, w.bus, who, maxEvents), w.bus, who, maxEvents);
            twice.stage.Outside? && twice.answers == s.answers + [Due(w, s, maxEvents)]
  {
    hide Refines, Tiles, Told, CursorAfter, Own, LogOutcome;
    var awake := Own(Own(s, w.bus, DeliverWakeUp(who)), w.bus, AwaitWakeUp(who));
    var once := Turned(s, w.bus, who, maxEvents);
    if s.stage.Uncancelled? {
      StaysAwake(s, w.bus, who);
      LooksUncancelled(w, awake, who, maxEvents);
      if !once.stage.Outside? {
        Awakens(once, w.bus, who);
        Looks(w, Own(Own(once, w.bus, DeliverWakeUp(who)), w.bus, AwaitWakeUp(who)), who, maxEvents);
      }
    } else {
      if s.stage.Entered? {
        StaysAwake(s, w.bus, who);
      } else {
        Awakens(s, w.bus, who);
      }
      Looks(w, awake, who, maxEvents);
    }
    if once.stage.Outside? {
      RestsOutside(once, w.bus, who, maxEvents);
    }
  }

  /** A new subscription is there for its consumer: its first call answers what the
      log holds behind the point it starts from, if there is anything. */
  lemma {:induction false} NewSubscriberIsServed(w: World, since: nat, maxEvents: nat)
    requires Refines(w.bus, w.log) && (w.bus.closed || since < |w.log|)
    ensures var who := |w.subscriptions|;
            var later := Run(w, [DoSubscribe(since)] + ([Enter(who)] + Turn(who, maxEvents)));
            && |later.subscriptions| == who + 1 && later.subscriptions[..who] == w.subscriptions
            && later.subscriptions[who].stage.Outside?
            && later.subscriptions[who].answers ==
               match LogOutcome(w.log, w.bus.closed, since, Clamp(maxEvents))
               case Events(events, resync) => [Batch(events, resync)]
               case _ => [Ended]
  {
    hide Run, Turn, Refines, LogOutcome, Clamp, Turned;
    var who := |w.subscriptions|;
    var s := Subscription(since, since, [], false, true, false, 0, Entered);
    RunOne(w, DoSubscribe(since), [Enter(who)] + Turn(who, maxEvents));
    var subscribed := Next(w, DoSubscribe(since));
    RunOne(subscribed, Enter(who), Turn(who, maxEvents));
    var entered := w.(subscriptions := w.subscriptions + [s]);
    assert Next(subscribed, Enter(who)) == entered;
    assert Turn(who, maxEvents) + [] == Turn(who, maxEvents);
    TurnIsOwn(entered, who, maxEvents, []);
    RunNone(entered.(subscriptions := entered.subscriptions[who := Turned(s, w.bus, who, maxEvents)]));
    NewTurn(entered, s, who, maxEvents);
  }

  lemma RunNone(w: World)
    ensures Run(w, []) == w
  {
  }

  lemma NewTurn(w: World, s: Subscription, who: nat, maxEvents: nat)
    requires Refines(w.bus, w.log) && SomethingToSee(w, s) && s.stage.Entered?
    ensures var turned := Turned(s, w.bus, who, maxEvents);
            turned.stage.Outside? && turned.answers == s.answers + [Due(w, s, maxEvents)]
  {
    hide Refines, Own, Due;
    StaysAwake(s, w.bus, who);
    var awake := Own(Own(s, w.bus, DeliverWakeUp(who)), w.bus, AwaitWakeUp(who));
    Looks(w, awake, who, maxEvents);
    SameDue(w, s, awake, maxEvents);
  }

  lemma SameDue(w: World, s: Subscription, next: Subscription, maxEvents: nat)
    requires SameNews(s, next) && next.stage == s.stage
    ensures Due(w, next, maxEvents) == Due(w, s, maxEvents)
  {
  }

  /** A call that has nothing to see is about to wait, having told nothing. It then
      parks, unless a permit is stored, which it uses up; it comes back from there
      by a wake-up or its timeout, and answers an empty batch if it gives up. */
  lemma {:induction false} OtherwiseItWaits(w: World, s: Subscription, who: nat, maxEvents: nat)
    requires Refines(w.bus, w.log) && !SomethingToSee(w, s)
    ensures s.stage.Outside? ==>
              var own := Own(s, w.bus, Enter(who));
              Own(Own(own, w.bus, CheckCancelled(who)), w.bus, DrainBus(who, maxEvents)) == s.(stage := AboutToWait)
    ensures s.stage.AboutToWait? ==>
              && Own(s, w.bus, AwaitWakeUp(who)) ==
                 (if s.permit then s.(permit := false, stage := Entered) else s.(stage := Parked))
              && Own(s, w.bus, GiveUpWaiting(who)) == s.(answers := s.answers + [Batch([], false)], stage := Outside)
    ensures s.stage.Parked? ==> Own(s, w.bus, TimeOut(who)) == s.(stage := Entered)
  {
    hide Refines, NextCursor, Outcome, Clamp;
    OutcomeReadsTheLog(w.bus, w.log, s.cursor, Clamp(maxEvents));
  }

  /** A consumer takes its steps one behind the other: a step that is not its next
      one does nothing. */
  lemma OutOfPlaceIsNothing(s: Subscription, bus: Bus, a: Action)
    requires || (a.Enter? && !s.stage.Outside?)
             || (a.CheckCancelled? && !s.stage.Entered?)
             || (a.DrainBus? && !s.stage.Uncancelled?)
             || ((a.GiveUpWaiting? || a.AwaitWakeUp?) && !s.stage.AboutToWait?)
             || (a.TimeOut? && !s.stage.Parked?)
             || (a.DeliverWakeUp? && s.wakeUps == 0)
    ensures Own(s, bus, a) == s
  {
    hide Outcome, NextCursor;
  }

  predicate Notifies(w: World, a: Action, who: nat)
    requires who < |w.subscriptions|
  {
    || ((a.DoPublish? || a.DoClose?) && !w.bus.closed && w.subscriptions[who].registered)
    || (a == DoCancel(who) && !w.subscriptions[who].cancelled)
  }

  /** Wake-ups are neither lost nor made up: one is sent for every publication and
      the closing, to everyone registered, and for a first cancellation; each is
      delivered once, to a parked consumer or as the one permit that is stored. */
  lemma {:induction false} WakesExactly(w: World, a: Action, who: nat)
    requires who < |w.subscriptions|
    ensures var s, next := w.subscriptions[who], Next(w, a).subscriptions[who];
            if Notifies(w, a, who) then
              next.wakeUps == s.wakeUps + 1 && next.permit == s.permit && next.stage == s.stage
            else if a == DeliverWakeUp(who) && s.wakeUps > 0 then
              && next.wakeUps == s.wakeUps - 1
              && (if s.stage.Parked? then next.stage.Entered? && next.permit == s.permit
                  else next.permit && next.stage == s.stage)
            else
              && next.wakeUps == s.wakeUps
              && (next.permit == s.permit || (a == AwaitWakeUp(who) && next.stage.Entered?))
  {
    hide Outcome, NextCursor, Publish, Close;
  }
}
