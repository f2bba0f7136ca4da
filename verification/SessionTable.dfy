/** The table of interactive sessions: starting, closing, removing, and the sweep
    a shutdown makes through it, step by step, down to the Close command that
    reaches each worker. */
module SessionTable {
  import opened Results
  import Hand = CloseHandshake

  /** A shutdown closes the door, lists the registered sessions, and requests one
      after the other to close. `current` is its request in progress. */
  datatype Sweep = Open | Shut | Asking(ids: seq<nat>, current: Option<nat>) | Swept

  /** `starting` is the session being created under the lifecycle lock. */
  datatype Table = Table(all: seq<Hand.Session>, registered: set<nat>, starting: Option<nat>, sweep: Sweep)

  const EMPTY := Table([], {}, None, Open)

  datatype Step =
    | Create
    | Register
    | Handshake(id: nat, step: Hand.Step)
    | Remove(id: nat)
    | ShutDoor
    | List(ids: seq<nat>)
    | AskNext
    | AskDone
    | Drop

  /** Somebody's request to close this session has returned. */
  predicate Closed(s: Hand.Session) {
    exists i :: 0 <= i < |s.requests| && s.requests[i].Returned?
  }

  function WithSession(t: Table, id: nat, s: Hand.Session): Table
    requires id < |t.all|
  {
    t.(all := t.all[id := s])
  }

  predicate InRange(t: Table, ids: seq<nat>) {
    forall id :: id in ids ==> id < |t.all|
  }

  function Next(t: Table, step: Step): Table {
    match step
    // The lifecycle lock is held from here until the session is registered.
    case Create =>
      if t.sweep.Open? && t.starting.None? then t.(all := t.all + [Hand.FRESH], starting := Some(|t.all|)) else t
    case Register =>
      if t.starting.Some? && t.starting.value < |t.all| && t.all[t.starting.value].attaching.Attached? then
        t.(registered := t.registered + {t.starting.value}, starting := None)
      else
        t
    case Handshake(id, handStep) => if id < |t.all| then WithSession(t, id, Hand.Next(t.all[id], handStep)) else t
    // Whoever removes a session has first requested it to close.
    case Remove(id) => if id < |t.all| && Closed(t.all[id]) then t.(registered := t.registered - {id}) else t
    case ShutDoor => if t.sweep.Open? && t.starting.None? then t.(sweep := Shut) else t
    case List(ids) =>
      if t.sweep.Shut? && (forall id :: id in t.registered ==> id in ids) && InRange(t, ids) then
        t.(sweep := Asking(ids, None))
      else
        t
    case AskNext =>
      if t.sweep.Asking? && t.sweep.current.None? && t.sweep.ids != [] && t.sweep.ids[0] < |t.all| then
        var s := t.all[t.sweep.ids[0]];
        WithSession(t, t.sweep.ids[0], Hand.Next(s, Hand.Call)).(sweep := Asking(t.sweep.ids, Some(|s.requests|)))
      else
        t
    case AskDone =>
      if !t.sweep.Asking? then
        t
      else if t.sweep.ids == [] then
        t.(sweep := Swept)
      else if t.sweep.current.Some? && t.sweep.ids[0] < |t.all|
          && Returned(t.all[t.sweep.ids[0]], t.sweep.current.value) then
        t.(sweep := Asking(t.sweep.ids[1..], None))
      else
        t
    case Drop => if t.sweep.Swept? then t.(registered := {}) else t
  }

  predicate Returned(s: Hand.Session, request: nat) {
    request < |s.requests| && s.requests[request].Returned?
  }

  function Run(t: Table, steps: seq<Step>): Table {
    if steps == [] then t else Next(Run(t, steps[..|steps| - 1]), steps[|steps| - 1])
  }

  // -------------------------------------------------------------------
  // Invariants
  // -------------------------------------------------------------------

  /** A session is being started, or has a channel and is registered, or has a
      channel and was closed. */
  predicate Accounted(t: Table, id: nat)
    requires id < |t.all|
  {
    || t.starting == Some(id)
    || (t.all[id].attaching.Attached? && (id in t.registered || Closed(t.all[id])))
  }

  /** What the sweep still has to do. */
  predicate SweepInv(t: Table) {
    && (!t.sweep.Open? ==> t.starting.None?)
    && (t.sweep.Asking? ==>
          && (forall id :: id in t.sweep.ids ==> id < |t.all|)
          && (t.sweep.current.Some? ==> t.sweep.ids != [])
          && (forall id :: 0 <= id < |t.all| ==> Closed(t.all[id]) || id in t.sweep.ids))
    && (t.sweep.Swept? ==> forall id :: 0 <= id < |t.all| ==> Closed(t.all[id]))
  }

  predicate Inv(t: Table) {
    && (t.starting.Some? ==> t.starting.value < |t.all|)
    && (forall id :: id in t.registered ==> id < |t.all|)
    && (forall id :: 0 <= id < |t.all| ==> Hand.Inv(t.all[id]))
    && (forall id :: 0 <= id < |t.all| ==> Accounted(t, id))
    && SweepInv(t)
  }

  /** A handshake step takes back neither a channel nor a returned request. */
  lemma HandshakeGrows(s: Hand.Session, step: Hand.Step)
    ensures s.attaching.Attached? ==> Hand.Next(s, step).attaching.Attached?
    ensures Closed(s) ==> Closed(Hand.Next(s, step))
  {
    if Closed(s) {
      var i :| 0 <= i < |s.requests| && s.requests[i].Returned?;
      assert Hand.Next(s, step).requests[i].Returned?;
    }
  }

  lemma HandshakeKeepsInv(t: Table, id: nat, step: Hand.Step)
    requires Inv(t) && id < |t.all|
    ensures Inv(Next(t, Handshake(id, step)))
  {
    hide Hand.Inv, Hand.Next, Closed;
    Hand.NextKeepsInv(t.all[id], step);
    HandshakeGrows(t.all[id], step);
    var next := Next(t, Handshake(id, step));
    forall other | 0 <= other < |next.all|
      ensures Accounted(next, other)
    {
      assert Accounted(t, other);
    }
  }

  lemma AskNextKeepsInv(t: Table)
    requires Inv(t)
    ensures Inv(Next(t, AskNext))
  {
    hide Hand.Inv, Hand.Next, Closed, Returned;
    if t.sweep.Asking? && t.sweep.ids != [] {
      var id := t.sweep.ids[0];
      assert id in t.sweep.ids;
      Hand.NextKeepsInv(t.all[id], Hand.Call);
      HandshakeGrows(t.all[id], Hand.Call);
    }
    var next := Next(t, AskNext);
    forall other | 0 <= other < |next.all|
      ensures Accounted(next, other) && Hand.Inv(next.all[other])
      ensures next.sweep.Asking? ==> Closed(next.all[other]) || other in next.sweep.ids
    {
      assert Accounted(t, other);
    }
  }

  lemma AskDoneKeepsInv(t: Table)
    requires Inv(t)
    ensures Inv(Next(t, AskDone))
  {
    hide Hand.Inv, Closed, Returned;
    if t.sweep.Asking? && t.sweep.ids != [] {
      assert t.sweep.ids[0] in t.sweep.ids;
      assert t.sweep.ids == [t.sweep.ids[0]] + t.sweep.ids[1..];
      if t.sweep.current.Some? {
        ReturnedCloses(t.all[t.sweep.ids[0]], t.sweep.current.value);
      }
    }
    var next := Next(t, AskDone);
    assert next.all == t.all && next.starting == t.starting && next.registered == t.registered;
    forall other | 0 <= other < |next.all|
      ensures Accounted(next, other)
      ensures next.sweep.Asking? ==> Closed(next.all[other]) || other in next.sweep.ids
      ensures next.sweep.Swept? ==> Closed(next.all[other])
    {
      assert Accounted(t, other);
    }
    assert next.sweep.Asking? ==> forall k :: k in next.sweep.ids ==> k in t.sweep.ids;
  }

  lemma ReturnedCloses(s: Hand.Session, request: nat)
    ensures Returned(s, request) ==> Closed(s)
  {
  }

  lemma TableKeepsInv(t: Table, step: Step)
    requires Inv(t) && !step.Handshake? && !step.AskNext? && !step.AskDone?
    ensures Inv(Next(t, step))
  {
    hide Closed;
    var next := Next(t, step);
    forall id | 0 <= id < |next.all|
      ensures Accounted(next, id) && Hand.Inv(next.all[id])
      ensures next.sweep.Asking? && !t.sweep.Asking? ==> Closed(next.all[id]) || id in next.sweep.ids
    {
      if id < |t.all| {
        assert Accounted(t, id);
      }
    }
  }

  lemma NextKeepsInv(t: Table, step: Step)
    requires Inv(t)
    ensures Inv(Next(t, step))
  {
    hide Inv, Next;
    match step
    case Handshake(id, handStep) =>
      if id < |t.all| {
        HandshakeKeepsInv(t, id, handStep);
      } else {
        NothingHappens(t, step);
      }
    case AskNext => AskNextKeepsInv(t);
    case AskDone => AskDoneKeepsInv(t);
    case Create => TableKeepsInv(t, step);
    case Register => TableKeepsInv(t, step);
    case Remove(_) => TableKeepsInv(t, step);
    case ShutDoor => TableKeepsInv(t, step);
    case List(_) => TableKeepsInv(t, step);
    case Drop => TableKeepsInv(t, step);
  }

  lemma NothingHappens(t: Table, step: Step)
    requires step.Handshake? && |t.all| <= step.id
    ensures Next(t, step) == t
  {
  }

  lemma {:induction false} RunKeepsInv(steps: seq<Step>)
    ensures Inv(Run(EMPTY, steps))
  {
    hide Inv, Next;
    if steps != [] {
      RunKeepsInv(steps[..|steps| - 1]);
      NextKeepsInv(Run(EMPTY, steps[..|steps| - 1]), steps[|steps| - 1]);
    } else {
      EmptyInv();
    }
  }

  lemma EmptyInv()
    ensures Inv(EMPTY)
  {
  }

  // -------------------------------------------------------------------
  // What every run guarantees
  // -------------------------------------------------------------------

  /** Every session ever created has a channel, and Close went through it. */
  predicate AllToldToClose(t: Table) {
    forall id :: 0 <= id < |t.all| ==> t.all[id].attaching.Attached? && t.all[id].sent > 0
  }

  lemma SweptMeansTold(t: Table)
    requires Inv(t) && t.sweep.Swept?
    ensures AllToldToClose(t)
  {
    forall id | 0 <= id < |t.all|
      ensures t.all[id].attaching.Attached? && t.all[id].sent > 0
    {
      assert Accounted(t, id);
      var i :| 0 <= i < |t.all[id].requests| && t.all[id].requests[i].Returned?;
      assert Hand.RequestInv(t.all[id], t.all[id].requests[i]);
    }
  }

  /** A closed door stays shut: no session is created behind it, and a sweep that
      is done stays done. */
  lemma StaysShut(t: Table, step: Step)
    requires !t.sweep.Open? && t.starting.None?
    ensures !Next(t, step).sweep.Open? && Next(t, step).starting.None? && |Next(t, step).all| == |t.all|
    ensures t.sweep.Swept? ==> Next(t, step).sweep.Swept?
  {
  }

  /** What was sent stays sent. */
  lemma StaysTold(t: Table, step: Step)
    requires AllToldToClose(t) && !t.sweep.Open? && t.starting.None?
    ensures AllToldToClose(Next(t, step))
  {
    hide Hand.Next;
    if step.Handshake? && step.id < |t.all| {
      SendingGrows(t.all[step.id], step.step);
    } else if step.AskNext? && t.sweep.Asking? && t.sweep.ids != [] && t.sweep.ids[0] < |t.all| {
      SendingGrows(t.all[t.sweep.ids[0]], Hand.Call);
    }
  }

  lemma SendingGrows(s: Hand.Session, step: Hand.Step)
    ensures s.attaching.Attached? ==> Hand.Next(s, step).attaching.Attached?
    ensures Hand.Next(s, step).sent >= s.sent
  {
  }

  lemma {:induction false} StaysSwept(t: Table, more: seq<Step>)
    requires t.sweep.Swept? && t.starting.None?
    ensures Run(t, more).sweep.Swept? && Run(t, more).starting.None? && |Run(t, more).all| == |t.all|
  {
    hide Next;
    if more != [] {
      StaysSwept(t, more[..|more| - 1]);
      StaysShut(Run(t, more[..|more| - 1]), more[|more| - 1]);
    }
  }

  lemma {:induction false} RunAppend(t: Table, steps: seq<Step>, more: seq<Step>)
    ensures Run(t, steps + more) == Run(Run(t, steps), more)
  {
    hide Next;
    if more == [] {
      assert steps + more == steps;
    } else {
      var n := |more| - 1;
      assert (steps + more)[..|steps + more| - 1] == steps + more[..n];
      RunAppend(t, steps, more[..n]);
    }
  }

  /** Over every interleaving of starts, attachments, requests to close, removals
      and the sweep: once the sweep is through, Close has been sent to the worker
      of every session ever created, registered or not, and there will be no more
      sessions. */
  lemma SweepMissesNothing(steps: seq<Step>, more: seq<Step>)
    requires Run(EMPTY, steps).sweep.Swept?
    ensures AllToldToClose(Run(EMPTY, steps + more))
    ensures |Run(EMPTY, steps + more).all| == |Run(EMPTY, steps).all|
  {
    hide Next;
    RunKeepsInv(steps);
    RunKeepsInv(steps + more);
    RunAppend(EMPTY, steps, more);
    StaysSwept(Run(EMPTY, steps), more);
    SweptMeansTold(Run(EMPTY, steps + more));
  }

  /** A session that was removed early was closed before it left the table. */
  lemma RemovedWereTold(steps: seq<Step>, id: nat)
    requires var t := Run(EMPTY, steps);
             id < |t.all| && t.starting != Some(id) && id !in t.registered
    ensures Run(EMPTY, steps).all[id].sent > 0
  {
    RunKeepsInv(steps);
    var s := Run(EMPTY, steps).all[id];
    assert Accounted(Run(EMPTY, steps), id);
    var i :| 0 <= i < |s.requests| && s.requests[i].Returned?;
    assert Hand.RequestInv(s, s.requests[i]);
  }

  /** The steps of one request of the sweep. */
  function AskSteps(id: nat, request: nat): seq<Step> {
    var shake := Handshake(id, Hand.Advance(request));
    [AskNext] + [shake] + [shake] + [shake] + [AskDone]
  }

  lemma RunSnoc(t: Table, steps: seq<Step>, step: Step)
    ensures Run(t, steps + [step]) == Next(Run(t, steps), step)
  {
    hide Next;
    assert (steps + [step])[..|steps|] == steps;
  }

  lemma RunOne(t: Table, step: Step)
    ensures Run(t, [step]) == Next(t, step)
  {
    hide Next;
    assert [step][..0] == [];
  }

  /** One listed session is asked from start to end. */
  lemma {:induction false} AsksOne(t: Table)
    requires Inv(t) && t.sweep.Asking? && t.sweep.current.None? && t.sweep.ids != []
    ensures var id := t.sweep.ids[0];
            && id < |t.all|
            && var asked := Run(t, AskSteps(id, |t.all[id].requests|));
               Inv(asked) && asked.sweep == Asking(t.sweep.ids[1..], None) && |asked.all| == |t.all|
  {
    hide Inv, Next, Run;
    var id, request := FirstOfSweep(t);
    var called := Next(t, AskNext);
    var shake := Handshake(id, Hand.Advance(request));
    AskNextIs(t);
    NextKeepsInv(t, AskNext);
    NextKeepsInv(called, shake);
    NextKeepsInv(Next(called, shake), shake);
    NextKeepsInv(Next(Next(called, shake), shake), shake);
    var shaken := Next(Next(Next(called, shake), shake), shake);
    ShakeThrough(called, id, request);
    NextKeepsInv(shaken, AskDone);
    AskDoneIs(shaken, request);
    RunOne(t, AskNext);
    RunSnoc(t, [AskNext], shake);
    RunSnoc(t, [AskNext] + [shake], shake);
    RunSnoc(t, [AskNext] + [shake] + [shake], shake);
    RunSnoc(t, [AskNext] + [shake] + [shake] + [shake], AskDone);
  }

  lemma FirstOfSweep(t: Table) returns (id: nat, request: nat)
    requires Inv(t) && t.sweep.Asking? && t.sweep.current.None? && t.sweep.ids != []
    ensures id == t.sweep.ids[0] < |t.all| && request == |t.all[id].requests| && t.all[id].attaching.Attached?
  {
    id := t.sweep.ids[0];
    assert id in t.sweep.ids && Accounted(t, id);
    request := |t.all[id].requests|;
  }

  lemma AskNextIs(t: Table)
    requires t.sweep.Asking? && t.sweep.current.None? && t.sweep.ids != [] && t.sweep.ids[0] < |t.all|
    ensures var id := t.sweep.ids[0];
            Next(t, AskNext) ==
            t.(all := t.all[id := Hand.Next(t.all[id], Hand.Call)],
               sweep := Asking(t.sweep.ids, Some(|t.all[id].requests|)))
  {
  }

  lemma ShakeThrough(t: Table, id: nat, request: nat)
    requires id < |t.all| && request < |t.all[id].requests| && t.all[id].requests[request].Called?
    requires t.all[id].attaching.Attached?
    ensures var shake := Handshake(id, Hand.Advance(request));
            var shaken := Next(Next(Next(t, shake), shake), shake);
            && shaken == t.(all := shaken.all) && |shaken.all| == |t.all|
            && Returned(shaken.all[id], request)
  {
    Hand.RequestGetsThrough(t.all[id], request);
  }

  lemma {:induction false} AsksAll(t: Table) returns (steps: seq<Step>)
    requires Inv(t) && t.sweep.Asking? && t.sweep.current.None?
    ensures Run(t, steps).sweep.Swept?
    decreases |t.sweep.ids|
  {
    hide Inv, Next, Run;
    if t.sweep.ids == [] {
      steps := [AskDone];
      EndsSweep(t);
    } else {
      AsksOne(t);
      var id := t.sweep.ids[0];
      var first := AskSteps(id, |t.all[id].requests|);
      var rest := AsksAll(Run(t, first));
      steps := first + rest;
      RunAppend(t, first, rest);
    }
  }

  lemma EndsSweep(t: Table)
    requires t.sweep.Asking? && t.sweep.ids == []
    ensures Run(t, [AskDone]).sweep.Swept?
  {
    RunOne(t, AskDone);
  }

  /** A shutdown's sweep can always be brought to its end: from every state with the
      door open and no start under way, there are steps that close the door, list
      the sessions and ask them all. */
  lemma {:induction false} SweepGetsThrough(t: Table) returns (steps: seq<Step>)
    requires Inv(t) && t.sweep.Open? && t.starting.None?
    ensures Run(t, steps).sweep.Swept?
  {
    hide Inv, Next, Run;
    var ids := seq(|t.all|, i => i);
    OpensSweep(t, ids);
    var listed := Next(Next(t, ShutDoor), List(ids));
    NextKeepsInv(t, ShutDoor);
    NextKeepsInv(Next(t, ShutDoor), List(ids));
    var rest := AsksAll(listed);
    steps := [ShutDoor] + [List(ids)] + rest;
    RunAppend(t, [ShutDoor] + [List(ids)], rest);
  }

  lemma OpensSweep(t: Table, ids: seq<nat>)
    requires Inv(t) && t.sweep.Open? && t.starting.None?
    requires |ids| == |t.all| && forall i :: 0 <= i < |ids| ==> ids[i] == i
    ensures Next(Next(t, ShutDoor), List(ids)).sweep == Asking(ids, None)
    ensures Run(t, [ShutDoor] + [List(ids)]) == Next(Next(t, ShutDoor), List(ids))
  {
    RunOne(t, ShutDoor);
    RunSnoc(t, [ShutDoor], List(ids));
    forall id | id in t.registered
      ensures id in ids
    {
      assert ids[id] == id;
    }
  }

  /** A start behind an open door, one at a time, gets through: it adds one session,
      attached and registered, and touches no other. */
  lemma {:induction false} StartGetsThrough(t: Table)
    requires t.sweep.Open? && t.starting.None?
    ensures var id := |t.all|;
            var created := Next(t, Create);
            var attached := Next(Next(Next(created, Handshake(id, Hand.TakeSlot)), Handshake(id, Hand.CheckFlag)),
                                 Handshake(id, Hand.FillSlot));
            && created.starting == Some(id)
            && Next(attached, Register)
               == t.(all := t.all + [Hand.FRESH.(attaching := Hand.Attached)], registered := t.registered + {id})
  {
    var id := |t.all|;
    var created := Next(t, Create);
    var taken := Next(created, Handshake(id, Hand.TakeSlot));
    var checked := Next(taken, Handshake(id, Hand.CheckFlag));
    var filled := Next(checked, Handshake(id, Hand.FillSlot));
    assert taken.all == t.all + [Hand.FRESH.(attaching := Hand.Locked)];
    assert checked.all == t.all + [Hand.FRESH.(attaching := Hand.Checked(false))];
    assert filled.all == t.all + [Hand.FRESH.(attaching := Hand.Attached)];
  }

  /** A session that was requested to close can be removed, and dropping removes
      them all; neither forgets that it was there. */
  lemma RemovingRemoves(t: Table, id: nat)
    requires id < |t.all|
    ensures Closed(t.all[id]) ==> Next(t, Remove(id)) == t.(registered := t.registered - {id})
    ensures !Closed(t.all[id]) ==> Next(t, Remove(id)) == t
    ensures t.sweep.Swept? ==> Next(t, Drop) == t.(registered := {})
  {
  }

  // -------------------------------------------------------------------
  // The registry object
  // -------------------------------------------------------------------

  class SessionRegistry {
    var all: seq<Hand.Session>
    var registered: set<nat>
    var starting: Option<nat>
    var sweep: Sweep

    function State(): Table
      reads this
    {
      Table(all, registered, starting, sweep)
    }

    constructor ()
      ensures State() == EMPTY
    {
      all, registered, starting, sweep := [], {}, None, Open;
    }

    /** One step of a session's handshake. */
    method Shake(id: nat, step: Hand.Step)
      requires Inv(State()) && id < |all|
      modifies this`all
      ensures Inv(State()) && State() == Next(old(State()), Handshake(id, step))
      ensures all == old(all)[id := Hand.Next(old(all)[id], step)]
    {
      NextKeepsInv(State(), Handshake(id, step));
      all := all[id := Hand.Next(all[id], step)];
    }

    /** Creates a session, attaches its channel and registers it, all under the
        lifecycle lock; refused behind a closed door. */
    method StartSession() returns (id: Option<nat>)
      requires Inv(State()) && starting.None?
      modifies this
      ensures Inv(State()) && starting.None? && sweep == old(sweep)
      ensures id == if old(sweep).Open? then Some(|old(all)|) else None
      ensures id.None? ==> State() == old(State())
      ensures id.Some? ==> all == old(all) + [Hand.FRESH.(attaching := Hand.Attached)]
      ensures id.Some? ==> registered == old(registered) + {|old(all)|}
    {
      hide Inv;
      if !sweep.Open? {
        return None;
      }
      NextKeepsInv(State(), Create);
      var n := |all|;
      all := all + [Hand.FRESH];
      starting := Some(n);
      Shake(n, Hand.TakeSlot);
      Shake(n, Hand.CheckFlag);
      Shake(n, Hand.FillSlot);
      NextKeepsInv(State(), Register);
      registered := registered + {n};
      starting := None;
      id := Some(n);
    }

    /** Requests every listed session to close, one after the other. */
    method RequestCloseAll()
      requires Inv(State()) && sweep.Asking? && sweep.current.None?
      modifies this`all, this`sweep
      ensures Inv(State()) && sweep.Swept? && |all| == |old(all)|
      ensures AllToldToClose(State())
    {
      while sweep.ids != []
        invariant Inv(State()) && sweep.Asking? && sweep.current.None? && |all| == |old(all)|
        decreases |sweep.ids|
      {
        RequestNext();
      }
      NextKeepsInv(State(), AskDone);
      sweep := Swept;
      SweptMeansTold(State());
    }

    method BeginRequest() returns (id: nat, request: nat)
      requires Inv(State()) && sweep.Asking? && sweep.current.None? && sweep.ids != []
      modifies this`all, this`sweep
      ensures Inv(State()) && sweep == Asking(old(sweep).ids, Some(request)) && |all| == |old(all)|
      ensures id == sweep.ids[0] < |all| && request + 1 == |all[id].requests|
      ensures all[id].requests[request].Called? && all[id].attaching.Attached?
    {
      id := sweep.ids[0];
      assert id in sweep.ids && Accounted(State(), id);
      request := |all[id].requests|;
      NextKeepsInv(State(), AskNext);
      all := all[id := Hand.Next(all[id], Hand.Call)];
      sweep := Asking(sweep.ids, Some(request));
    }

    method RequestNext()
      requires Inv(State()) && sweep.Asking? && sweep.current.None? && sweep.ids != []
      modifies this`all, this`sweep
      ensures Inv(State()) && sweep == Asking(old(sweep).ids[1..], None) && |all| == |old(all)|
    {
      hide Inv, Next;
      var id, request := BeginRequest();
      Shake(id, Hand.Advance(request));
      Shake(id, Hand.Advance(request));
      Shake(id, Hand.Advance(request));
      AskDoneIs(State(), request);
      NextKeepsInv(State(), AskDone);
      sweep := Asking(sweep.ids[1..], None);
    }
  }

  lemma AskDoneIs(t: Table, request: nat)
    requires t.sweep.Asking? && t.sweep.current == Some(request) && t.sweep.ids != []
    requires t.sweep.ids[0] < |t.all| && Returned(t.all[t.sweep.ids[0]], request)
    ensures Next(t, AskDone) == t.(sweep := Asking(t.sweep.ids[1..], None))
  {
  }
}
