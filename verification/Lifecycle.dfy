/** The life of a backend: initialization, data operations, sessions, snapshots
    and shutdown, ordered by one lifecycle lock and one operation gate. Each step
    is one critical section. */
module Lifecycle {
  import opened Results
  import opened EventBus
  import Sessions = SessionTable

  /** The gate of the data layer. */
  datatype Gate = Gate(retired: bool, active: nat)

  datatype Snapshot = Snapshot(initialized: bool, closed: bool, sequence: nat)

  /** One call to initialize: it prepares outside the lock. */
  datatype InitCall = Preparing | InitDone

  /** One data operation, from its handle to its report. */
  datatype Operation = HasHandle | Running | Left | OperationDone

  /** The call to shutdown that closed the backend. Others return at once. */
  datatype Shutdown = NotBegun | Asking | Retiring | Waiting(woken: bool) | Returned

  datatype World = World(
    initialized: bool,
    closed: bool,
    bus: Bus,
    gate: Option<Gate>,
    shutdown: Shutdown,
    initCalls: seq<InitCall>,
    operations: seq<Operation>,
    sessions: Sessions.Table,
    snapshots: seq<Snapshot>,
    log: seq<BackendEvent>)

  const FRESH := World(false, false, EMPTY_BUS, None, NotBegun, [], [], Sessions.EMPTY, [], [])

  datatype Step =
    | BeginInitialize
    | CommitInitialize(init: nat)
    | CallOperation
    | Enter(operation: nat)
    | Leave(operation: nat)
    | Report(operation: nat, code: int)
    | Announce(code: int)
    | OnSessions(step: Sessions.Step)
    | TakeSnapshot
    | BeginShutdown
    | SessionsAsked
    | Retire
    | Wake

  // -------------------------------------------------------------------
  // Critical sections
  // -------------------------------------------------------------------

  function Published(w: World, event: BackendEvent): World {
    w.(bus := Publish(w.bus, event), log := Append(w.bus, w.log, event))
  }

  /** Publishing from outside the lock: dropped once closed. */
  function Announced(w: World, event: BackendEvent): World {
    if w.closed then w else Published(w, event)
  }

  function SnapshotOf(w: World): Snapshot {
    Snapshot(w.initialized, w.closed, LatestSequence(w.bus))
  }

  function Committed(w: World): World {
    if w.initialized then w else Published(w.(initialized := true, gate := Some(Gate(false, 0))), Ready)
  }

  function AfterLeave(w: World): World
    requires w.gate.Some?
  {
    var active := if w.gate.value.active == 0 then 0 else w.gate.value.active - 1;
    w.(gate := Some(w.gate.value.(active := active)),
       shutdown := if active == 0 && w.shutdown.Waiting? then Waiting(true) else w.shutdown)
  }

  function WithOperation(w: World, operation: nat, next: Operation): World
    requires operation < |w.operations|
  {
    w.(operations := w.operations[operation := next])
  }

  function Next(w: World, step: Step): World {
    match step
    case BeginInitialize =>
      if w.closed then
        w
      else if w.initialized then
        w.(snapshots := w.snapshots + [SnapshotOf(w)])
      else
        w.(initCalls := w.initCalls + [Preparing])
    case CommitInitialize(init) =>
      if |w.initCalls| <= init || w.initCalls[init].InitDone? then
        w
      else
        var done := w.(initCalls := w.initCalls[init := InitDone]);
        if w.closed then
          done
        else
          var committed := Committed(done);
          committed.(snapshots := committed.snapshots + [SnapshotOf(committed)])
    case CallOperation =>
      if w.closed || w.gate.None? then w else w.(operations := w.operations + [HasHandle])
    case Enter(operation) =>
      if |w.operations| <= operation || !w.operations[operation].HasHandle? || w.gate.None? then
        w
      else if w.gate.value.retired then
        WithOperation(w, operation, OperationDone)
      else
        WithOperation(w, operation, Running).(gate := Some(w.gate.value.(active := w.gate.value.active + 1)))
    case Leave(operation) =>
      if |w.operations| <= operation || !w.operations[operation].Running? || w.gate.None? then
        w
      else
        AfterLeave(WithOperation(w, operation, Left))
    case Report(operation, code) =>
      if |w.operations| <= operation || !w.operations[operation].Left? then
        w
      else
        Announced(WithOperation(w, operation, OperationDone), Notice(code))
    case Announce(code) => Announced(w, Notice(code))
    // The door of the session table is shut by the shutdown only.
    case OnSessions(sessionStep) =>
      if sessionStep.ShutDoor? then w else w.(sessions := Sessions.Next(w.sessions, sessionStep))
    case TakeSnapshot => w.(snapshots := w.snapshots + [SnapshotOf(w)])
    case BeginShutdown =>
      // Starting a session holds the lifecycle lock.
      if w.closed || w.sessions.starting.Some? then
        w
      else
        var published := Published(w.(closed := true), EventBus.Shutdown);
        published.(bus := Close(published.bus), shutdown := Asking,
                   sessions := Sessions.Next(w.sessions, Sessions.ShutDoor))
    case SessionsAsked => if w.shutdown.Asking? && w.sessions.sweep.Swept? then w.(shutdown := Retiring) else w
    case Retire =>
      if !w.shutdown.Retiring? then
        w
      else if w.gate.None? then
        w.(shutdown := Returned)
      else
        w.(gate := Some(w.gate.value.(retired := true)),
           shutdown := if w.gate.value.active > 0 then Waiting(false) else Returned)
    case Wake =>
      if w.shutdown == Waiting(true) && w.gate.Some? then
        w.(shutdown := if w.gate.value.active > 0 then Waiting(false) else Returned)
      else
        w
  }

  function Run(w: World, steps: seq<Step>): World {
    if steps == [] then w else Next(Run(w, steps[..|steps| - 1]), steps[|steps| - 1])
  }

  // -------------------------------------------------------------------
  // Invariants
  // -------------------------------------------------------------------

  function Count(operations: seq<Operation>): nat {
    if operations == [] then 0
    else Count(operations[..|operations| - 1]) + (if operations[|operations| - 1].Running? then 1 else 0)
  }

  /** Ready was published exactly by the initialization, and Shutdown exactly by
      the closing, last. */
  ghost predicate LogInv(initialized: bool, closed: bool, log: seq<BackendEvent>) {
    && (initialized <==> Ready in log)
    && (closed <==> EventBus.Shutdown in log)
    && (forall i, j :: 0 <= i < j < |log| && log[i].Ready? ==> !log[j].Ready?)
    && (forall i :: 0 <= i < |log| && log[i].Shutdown? ==> i == |log| - 1)
  }

  ghost predicate BusInv(w: World) {
    && Refines(w.bus, w.log)
    && (w.bus.closed <==> w.closed)
  }

  predicate GateInv(w: World) {
    && (w.gate.Some? <==> w.initialized)
    && (w.gate.Some? ==> w.gate.value.active == Count(w.operations))
    && (w.gate.None? ==> w.operations == [])
  }

  predicate ShutdownInv(w: World) {
    && (w.shutdown.NotBegun? <==> !w.closed)
    && (w.gate.Some? ==> (w.gate.value.retired <==> w.shutdown.Waiting? || w.shutdown.Returned?))
    && (w.shutdown.Waiting? ==> w.gate.Some?)
    && (w.shutdown == Waiting(false) ==> w.gate.value.active > 0)
    && (w.shutdown.Returned? && w.gate.Some? ==> w.gate.value.active == 0)
    && (!w.shutdown.NotBegun? && !w.shutdown.Asking? ==> w.sessions.sweep.Swept?)
    && (w.closed <==> !w.sessions.sweep.Open?)
  }

  /** A snapshot's flags are those of the log up to its cursor. */
  predicate Agrees(snapshot: Snapshot, log: seq<BackendEvent>) {
    && snapshot.sequence <= |log|
    && (snapshot.initialized <==> Ready in log[..snapshot.sequence])
    && (snapshot.closed <==> EventBus.Shutdown in log[..snapshot.sequence])
  }

  predicate SnapshotsInv(w: World) {
    forall i :: 0 <= i < |w.snapshots| ==> Agrees(w.snapshots[i], w.log)
  }

  ghost predicate Inv(w: World) {
    && LogInv(w.initialized, w.closed, w.log)
    && BusInv(w)
    && GateInv(w)
    && ShutdownInv(w)
    && SnapshotsInv(w)
    && Sessions.Inv(w.sessions)
  }

  lemma {:induction false} CountUpdate(operations: seq<Operation>, i: nat, next: Operation)
    requires i < |operations|
    ensures Count(operations[i := next]) + (if operations[i].Running? then 1 else 0)
         == Count(operations) + (if next.Running? then 1 else 0)
  {
    var n := |operations| - 1;
    var updated := operations[i := next];
    if i < n {
      CountUpdate(operations[..n], i, next);
      assert updated[..n] == operations[..n][i := next];
    } else {
      assert updated[..n] == operations[..n];
    }
  }

  lemma CountSnoc(operations: seq<Operation>, next: Operation)
    ensures Count(operations + [next]) == Count(operations) + (if next.Running? then 1 else 0)
  {
    assert (operations + [next])[..|operations|] == operations;
  }

  /** Publishing in an open backend: the log grows by the event. */
  lemma PublishKeeps(w: World, event: BackendEvent)
    requires BusInv(w) && SnapshotsInv(w)
    requires !w.bus.closed
    ensures Published(w, event).log == w.log + [event]
    ensures BusInv(Published(w, event)) && SnapshotsInv(Published(w, event))
  {
    hide Refines, Publish;
    PublishRefines(w.bus, w.log, event);
    var log := w.log + [event];
    forall i | 0 <= i < |w.snapshots|
      ensures Agrees(w.snapshots[i], log)
    {
      assert Agrees(w.snapshots[i], w.log);
      assert log[..w.snapshots[i].sequence] == w.log[..w.snapshots[i].sequence];
    }
  }

  lemma AnnounceKeepsInv(w: World, code: int)
    requires Inv(w)
    ensures Inv(Announced(w, Notice(code)))
  {
    hide Refines, Publish, Count;
    if !w.closed {
      PublishKeeps(w, Notice(code));
    }
  }

  lemma SnapshotKeepsInv(w: World)
    requires Inv(w)
    ensures Inv(w.(snapshots := w.snapshots + [SnapshotOf(w)]))
  {
    hide Count;
    assert w.log[..|w.log|] == w.log;
    assert Agrees(SnapshotOf(w), w.log);
  }

  lemma CommitKeepsInv(w: World)
    requires Inv(w) && !w.closed
    ensures Inv(Committed(w)) && !Committed(w).closed
  {
    hide Refines, Publish;
    if !w.initialized {
      var ready := w.(initialized := true, gate := Some(Gate(false, 0)));
      PublishKeeps(ready, Ready);
    }
  }

  lemma BeginShutdownKeepsInv(w: World)
    requires Inv(w)
    ensures Inv(Next(w, BeginShutdown))
  {
    hide Refines, Publish, Count, Sessions.Inv;
    if !w.closed && w.sessions.starting.None? {
      PublishKeeps(w, EventBus.Shutdown);
      var published := Published(w.(closed := true), EventBus.Shutdown);
      ClosingRefines(published.bus, published.log);
      Sessions.NextKeepsInv(w.sessions, Sessions.ShutDoor);
    }
  }

  lemma OnSessionsKeepsInv(w: World, step: Sessions.Step)
    requires Inv(w)
    ensures Inv(Next(w, OnSessions(step)))
  {
    if !step.ShutDoor? {
      hide Refines, LogInv, GateInv, SnapshotsInv, Count, Sessions.Inv;
      Sessions.NextKeepsInv(w.sessions, step);
    }
  }

  lemma ClosingRefines(bus: Bus, log: seq<BackendEvent>)
    requires Refines(bus, log)
    ensures Refines(Close(bus), log)
  {
  }

  lemma OperationKeepsInv(w: World, step: Step)
    requires Inv(w) && (step.CallOperation? || step.Enter? || step.Leave?)
    ensures Inv(Next(w, step))
  {
    hide Refines, LogInv, SnapshotsInv, Count, Sessions.Inv;
    var next := Next(w, step);
    if step.CallOperation? {
      CountSnoc(w.operations, HasHandle);
    } else if step.operation < |w.operations| && next != w {
      CountUpdate(w.operations, step.operation, next.operations[step.operation]);
    }
    assert next.log == w.log && next.bus == w.bus && next.snapshots == w.snapshots;
    SameSnapshots(w, next);
  }

  lemma SameSnapshots(w: World, next: World)
    requires next.log == w.log && next.snapshots == w.snapshots && SnapshotsInv(w)
    ensures SnapshotsInv(next)
  {
  }

  lemma ReportKeepsInv(w: World, operation: nat, code: int)
    requires Inv(w)
    ensures Inv(Next(w, Report(operation, code)))
  {
    if operation < |w.operations| && w.operations[operation].Left? {
      hide Refines, LogInv, SnapshotsInv, Count;
      var left := WithOperation(w, operation, OperationDone);
      CountUpdate(w.operations, operation, OperationDone);
      SameSnapshots(w, left);
      AnnounceKeepsInv(left, code);
    }
  }

  lemma {:induction false} NextKeepsInv(w: World, step: Step)
    requires Inv(w)
    ensures Inv(Next(w, step))
  {
    match step
    case BeginInitialize => SnapshotKeepsInv(w);
    case CommitInitialize(init) =>
      if init < |w.initCalls| && !w.initCalls[init].InitDone? && !w.closed {
        var done := w.(initCalls := w.initCalls[init := InitDone]);
        CommitKeepsInv(done);
        SnapshotKeepsInv(Committed(done));
      }
    case CallOperation => OperationKeepsInv(w, step);
    case Enter(_) => OperationKeepsInv(w, step);
    case Leave(_) => OperationKeepsInv(w, step);
    case Report(operation, code) => ReportKeepsInv(w, operation, code);
    case Announce(code) => AnnounceKeepsInv(w, code);
    case OnSessions(sessionStep) => OnSessionsKeepsInv(w, sessionStep);
    case TakeSnapshot => SnapshotKeepsInv(w);
    case BeginShutdown => BeginShutdownKeepsInv(w);
    case SessionsAsked =>
    case Retire =>
    case Wake =>
  }

  lemma {:induction false} RunKeepsInv(steps: seq<Step>)
    ensures Inv(Run(FRESH, steps))
  {
    hide Inv;
    if steps != [] {
      RunKeepsInv(steps[..|steps| - 1]);
      NextKeepsInv(Run(FRESH, steps[..|steps| - 1]), steps[|steps| - 1]);
    } else {
      FreshInv();
    }
  }

  lemma FreshInv()
    ensures Inv(FRESH)
  {
  }

  // -------------------------------------------------------------------
  // What every run guarantees
  // -------------------------------------------------------------------

  /** Ready is published once at most, Shutdown once at most and last, and the
      two flags are exactly what the log says. */
  lemma ReadyOnceShutdownLast(steps: seq<Step>)
    ensures var w := Run(FRESH, steps);
            && (w.initialized <==> Ready in w.log)
            && (w.closed <==> EventBus.Shutdown in w.log)
            && (forall i, j :: 0 <= i < j < |w.log| ==> !w.log[i].Shutdown? && !(w.log[i].Ready? && w.log[j].Ready?))
  {
    RunKeepsInv(steps);
  }

  /** Whoever resumes from a snapshot's cursor sees exactly the lifecycle events
      its flags do not already show, however long the log has grown. */
  lemma SnapshotsMatchTheirCursor(steps: seq<Step>, i: nat)
    requires i < |Run(FRESH, steps).snapshots|
    ensures var w := Run(FRESH, steps);
            var snapshot := w.snapshots[i];
            && snapshot.sequence <= |w.log|
            && (snapshot.initialized <==> Ready in w.log[..snapshot.sequence])
            && (snapshot.closed <==> EventBus.Shutdown in w.log[..snapshot.sequence])
            && (!snapshot.initialized && w.initialized ==> Ready in w.log[snapshot.sequence..])
            && (snapshot.initialized ==> Ready !in w.log[snapshot.sequence..])
            && (snapshot.closed ==> w.log[snapshot.sequence..] == [])
  {
    hide BusInv, GateInv, ShutdownInv, Sessions.Inv, Run;
    RunKeepsInv(steps);
    var w := Run(FRESH, steps);
    assert Agrees(w.snapshots[i], w.log);
  }

  /** No operation is lost sleeping: a shutdown that waits without having been
      woken has an operation to wait for; and once they are all gone it is awake,
      and its next step returns. */
  lemma DrainingEnds(steps: seq<Step>)
    requires Run(FRESH, steps).shutdown.Waiting?
    ensures var w := Run(FRESH, steps);
            && w.gate.Some? && w.gate.value.retired
            && (w.shutdown == Waiting(false) ==> exists i :: 0 <= i < |w.operations| && w.operations[i].Running?)
            && ((forall i :: 0 <= i < |w.operations| ==> !w.operations[i].Running?) ==>
                Next(w, Wake).shutdown.Returned?)
  {
    RunKeepsInv(steps);
    CountsRunning(Run(FRESH, steps).operations);
  }

  lemma {:induction false} CountsRunning(operations: seq<Operation>)
    ensures Count(operations) == 0 <==> forall i :: 0 <= i < |operations| ==> !operations[i].Running?
  {
    if operations != [] {
      var n := |operations| - 1;
      CountsRunning(operations[..n]);
      if Count(operations) != 0 {
        if operations[n].Running? {
        } else {
          var i :| 0 <= i < n && operations[..n][i].Running?;
          assert operations[i].Running?;
        }
      } else {
        forall i | 0 <= i < |operations|
          ensures !operations[i].Running?
        {
          if i < n {
            assert !operations[..n][i].Running?;
          }
        }
      }
    }
  }

  /** Where a returned shutdown has left things, they stay. */
  lemma StepAfterReturn(w: World, step: Step)
    requires Inv(w) && w.shutdown.Returned?
    ensures Next(w, step).shutdown.Returned? && Next(w, step).log == w.log
    ensures |Next(w, step).sessions.all| == |w.sessions.all|
  {
    hide Refines, LogInv, GateInv, SnapshotsInv, Count, Publish, Append;
    if step.OnSessions? {
      Sessions.StaysShut(w.sessions, step.step);
    }
  }

  lemma {:induction false} RunAfterReturn(w: World, more: seq<Step>)
    requires Inv(w) && w.shutdown.Returned?
    ensures Inv(Run(w, more)) && Run(w, more).shutdown.Returned? && Run(w, more).log == w.log
    ensures |Run(w, more).sessions.all| == |w.sessions.all|
  {
    hide Inv, Next;
    if more != [] {
      var earlier := more[..|more| - 1];
      RunAfterReturn(w, earlier);
      StepAfterReturn(Run(w, earlier), more[|more| - 1]);
      NextKeepsInv(Run(w, earlier), more[|more| - 1]);
    }
  }

  lemma ReturnedMeansDone(w: World)
    requires Inv(w) && w.shutdown.Returned?
    ensures NoneRunning(w) && Sessions.AllToldToClose(w.sessions)
  {
    hide Refines, LogInv, SnapshotsInv, Sessions.Inv, Sessions.AllToldToClose;
    CountsRunning(w.operations);
    Sessions.SweptMeansTold(w.sessions);
  }

  lemma {:induction false} RunAppend(w: World, steps: seq<Step>, more: seq<Step>)
    ensures Run(w, steps + more) == Run(Run(w, steps), more)
  {
    hide Next;
    if more == [] {
      assert steps + more == steps;
    } else {
      var n := |more| - 1;
      assert (steps + more)[..|steps + more| - 1] == steps + more[..n];
      RunAppend(w, steps, more[..n]);
    }
  }

  /** Once the shutdown has returned, no data operation runs or will ever run
      again; every session ever created, still registered or not, has a channel
      and was sent Close through it; none is created; and the log has ended. */
  lemma {:induction false} ShutdownIsFinal(steps: seq<Step>, more: seq<Step>)
    requires Run(FRESH, steps).shutdown.Returned?
    ensures var w := Run(FRESH, steps + more);
            && w.shutdown.Returned?
            && NoneRunning(w)
            && Sessions.AllToldToClose(w.sessions)
            && |w.sessions.all| == |Run(FRESH, steps).sessions.all|
            && w.log == Run(FRESH, steps).log
  {
    hide Inv, Next, Run, NoneRunning;
    RunKeepsInv(steps);
    RunAppend(FRESH, steps, more);
    RunAfterReturn(Run(FRESH, steps), more);
    ReturnedMeansDone(Run(FRESH, steps + more));
  }

  predicate NoneRunning(w: World) {
    forall i :: 0 <= i < |w.operations| ==> !w.operations[i].Running?
  }

  /** Nothing runs, and nobody still holding a handle can get in. */
  predicate Drained(w: World) {
    && NoneRunning(w)
    && (w.gate.None? || w.gate.value.retired || forall i :: 0 <= i < |w.operations| ==> !w.operations[i].HasHandle?)
  }

  /** No operation runs from here on, whatever happens. */
  ghost predicate QuietForGood(w: World) {
    forall more :: NoneRunning(Run(w, more))
  }

  lemma StaysDrained(w: World, step: Step)
    requires w.closed && Drained(w)
    ensures Next(w, step).closed && Drained(Next(w, step))
  {
    hide Publish, Append;
    var next := Next(w, step);
    assert next.gate.None? <==> w.gate.None?;
    assert |next.operations| == |w.operations|;
    assert forall i :: 0 <= i < |next.operations| && next.operations[i].HasHandle? ==> w.operations[i].HasHandle?;
  }

  lemma {:induction false} DrainedForGood(w: World, more: seq<Step>)
    requires w.closed && Drained(w)
    ensures Run(w, more).closed && Drained(Run(w, more))
  {
    hide Next, Drained;
    if more != [] {
      DrainedForGood(w, more[..|more| - 1]);
      StaysDrained(Run(w, more[..|more| - 1]), more[|more| - 1]);
    }
  }

  /** In a closed backend, no operation will ever run again exactly when none
      runs now and the gate is shut to those that still hold a handle. */
  lemma QuietExactlyWhenDrained(w: World)
    requires w.closed
    ensures QuietForGood(w) <==> Drained(w)
  {
    if Drained(w) {
      forall more
        ensures NoneRunning(Run(w, more))
      {
        DrainedForGood(w, more);
      }
    } else if NoneRunning(w) {
      var i :| 0 <= i < |w.operations| && w.operations[i].HasHandle?;
      assert [Enter(i)][..0] == [];
      assert Run(w, [Enter(i)]) == Next(w, Enter(i));
      assert Next(w, Enter(i)).operations[i].Running?;
      assert !NoneRunning(Run(w, [Enter(i)]));
    } else {
      assert !NoneRunning(Run(w, []));
    }
  }

  /** What a shutdown promises on its return: from here on, whatever happens, no
      operation runs, every session ever created was sent Close, none is created,
      and nothing is published. */
  ghost predicate KeepsItsPromise(w: World) {
    forall more :: ShutDownAt(w, Run(w, more))
  }

  predicate ShutDownAt(w: World, later: World) {
    && NoneRunning(later)
    && Sessions.AllToldToClose(later.sessions)
    && |later.sessions.all| == |w.sessions.all|
    && later.log == w.log
  }

  lemma StepKeepsTheEnd(w: World, step: Step)
    requires Inv(w) && w.closed && Sessions.AllToldToClose(w.sessions)
    ensures var next := Next(w, step);
            && next.closed && next.log == w.log
            && |next.sessions.all| == |w.sessions.all| && Sessions.AllToldToClose(next.sessions)
  {
    hide Refines, LogInv, GateInv, SnapshotsInv, Publish, Append, Sessions.Next, Sessions.AllToldToClose;
    if step.OnSessions? {
      Sessions.StaysShut(w.sessions, step.step);
      Sessions.StaysTold(w.sessions, step.step);
    }
  }

  lemma {:induction false} RunKeepsTheEnd(w: World, more: seq<Step>)
    requires Inv(w) && w.closed && Sessions.AllToldToClose(w.sessions)
    ensures var later := Run(w, more);
            && Inv(later) && later.closed && later.log == w.log
            && |later.sessions.all| == |w.sessions.all| && Sessions.AllToldToClose(later.sessions)
  {
    hide Inv, Next, Sessions.AllToldToClose;
    if more != [] {
      var earlier := more[..|more| - 1];
      RunKeepsTheEnd(w, earlier);
      StepKeepsTheEnd(Run(w, earlier), more[|more| - 1]);
      NextKeepsInv(Run(w, earlier), more[|more| - 1]);
    }
  }

  /** In a closed backend a shutdown's whole promise holds from here on exactly
      when the data layer is drained and every session has been sent Close. */
  lemma PromiseExactly(w: World)
    requires Inv(w) && w.closed
    ensures KeepsItsPromise(w) <==> Drained(w) && Sessions.AllToldToClose(w.sessions)
  {
    hide Inv, Next, Drained, NoneRunning, Sessions.AllToldToClose;
    QuietExactlyWhenDrained(w);
    if Drained(w) && Sessions.AllToldToClose(w.sessions) {
      forall more
        ensures ShutDownAt(w, Run(w, more))
      {
        RunKeepsTheEnd(w, more);
      }
    }
    if KeepsItsPromise(w) {
      assert ShutDownAt(w, Run(w, []));
      forall more
        ensures NoneRunning(Run(w, more))
      {
        assert ShutDownAt(w, Run(w, more));
      }
    }
  }

  /** A call to shutdown on a closed backend returns at once. It keeps what a
      shutdown promises if and only if, before the call, the backend was drained
      and every session had been sent Close; the call that closed the backend
      always keeps it. */
  lemma WhenAReturningShutdownKeepsItsPromise(steps: seq<Step>)
    requires Run(FRESH, steps).closed
    ensures var w := Run(FRESH, steps);
            && Next(w, BeginShutdown) == w
            && (KeepsItsPromise(Next(w, BeginShutdown)) <==> Drained(w) && Sessions.AllToldToClose(w.sessions))
            && (w.shutdown.Returned? ==> KeepsItsPromise(w))
  {
    hide Refines, LogInv, SnapshotsInv, Sessions.Inv, Sessions.AllToldToClose, KeepsItsPromise;
    RunKeepsInv(steps);
    var w := Run(FRESH, steps);
    PromiseExactly(w);
    CountsRunning(w.operations);
    if w.shutdown.Returned? {
      ReturnedMeansDone(w);
    }
  }

  /** It is not always drained: a second call to shutdown returns while an
      operation that the first one still waits for goes on. */
  lemma ClosedIsNotDrained()
    ensures var w := Run(FRESH,
        [BeginInitialize] + [CommitInitialize(0)] + [CallOperation] + [Enter(0)] + [BeginShutdown]);
            && w.closed && w.operations == [Running] && !Drained(w)
            && Next(w, BeginShutdown) == w && !KeepsItsPromise(w)
  {
    hide Refines, Publish, Sessions.Inv, KeepsItsPromise;
    assert Run(FRESH, []) == FRESH;
    assert [BeginInitialize] == [] + [BeginInitialize];
    RunSnoc([], BeginInitialize);
    RunSnoc([BeginInitialize], CommitInitialize(0));
    RunSnoc([BeginInitialize] + [CommitInitialize(0)], CallOperation);
    RunSnoc([BeginInitialize] + [CommitInitialize(0)] + [CallOperation], Enter(0));
    RunSnoc([BeginInitialize] + [CommitInitialize(0)] + [CallOperation] + [Enter(0)], BeginShutdown);
    assert Run(FRESH, [BeginInitialize] + [CommitInitialize(0)] + [CallOperation] + [Enter(0)] + [BeginShutdown])
           .operations[0].Running?;
    RunKeepsInv([BeginInitialize] + [CommitInitialize(0)] + [CallOperation] + [Enter(0)] + [BeginShutdown]);
    PromiseExactly(Run(FRESH,
        [BeginInitialize] + [CommitInitialize(0)] + [CallOperation] + [Enter(0)] + [BeginShutdown]));
  }

  /** One session is created, attached and registered. */
  const ONE_SESSION := [OnSessions(Sessions.Create)]
    + [OnSessions(Sessions.Handshake(0, Sessions.Hand.TakeSlot))]
    + [OnSessions(Sessions.Handshake(0, Sessions.Hand.CheckFlag))]
    + [OnSessions(Sessions.Handshake(0, Sessions.Hand.FillSlot))]
    + [OnSessions(Sessions.Register)]

  /** Nor is a drained one always done with its sessions: a second call returns
      before the first has asked them to close. */
  lemma DrainedIsNotTold()
    ensures var w := Run(FRESH, ONE_SESSION + [BeginShutdown]);
            && w.closed && Drained(w) && Next(w, BeginShutdown) == w
            && |w.sessions.all| == 1 && w.sessions.all[0].sent == 0
            && !KeepsItsPromise(w)
  {
    hide Refines, Publish, Sessions.Inv, KeepsItsPromise, Run;
    OneSession();
    RunSnoc(ONE_SESSION, BeginShutdown);
    RunKeepsInv(ONE_SESSION + [BeginShutdown]);
    PromiseExactly(Run(FRESH, ONE_SESSION + [BeginShutdown]));
  }

  lemma OneSession()
    ensures var w := Run(FRESH, ONE_SESSION);
            w == FRESH.(sessions := Sessions.Table([Sessions.Hand.FRESH.(attaching := Sessions.Hand.Attached)],
                                                   {0}, None, Sessions.Open))
  {
    hide Run;
    var create := [OnSessions(Sessions.Create)];
    var slot := create + [OnSessions(Sessions.Handshake(0, Sessions.Hand.TakeSlot))];
    var flag := slot + [OnSessions(Sessions.Handshake(0, Sessions.Hand.CheckFlag))];
    var fill := flag + [OnSessions(Sessions.Handshake(0, Sessions.Hand.FillSlot))];
    RunNothing();
    assert create == [] + create;
    RunSnoc([], OnSessions(Sessions.Create));
    RunSnoc(create, OnSessions(Sessions.Handshake(0, Sessions.Hand.TakeSlot)));
    RunSnoc(slot, OnSessions(Sessions.Handshake(0, Sessions.Hand.CheckFlag)));
    RunSnoc(flag, OnSessions(Sessions.Handshake(0, Sessions.Hand.FillSlot)));
    RunSnoc(fill, OnSessions(Sessions.Register));
  }

  lemma RunNothing()
    ensures Run(FRESH, []) == FRESH
  {
  }

  lemma RunSnoc(steps: seq<Step>, step: Step)
    ensures Run(FRESH, steps + [step]) == Next(Run(FRESH, steps), step)
  {
    assert (steps + [step])[..|steps|] == steps;
  }

  /** The events that a step publishes, told from what was published before. */
  function PublishedBy(w: World, step: Step): seq<BackendEvent> {
    if EventBus.Shutdown in w.log then []
    else
      match step
      case CommitInitialize(init) =>
        if init < |w.initCalls| && w.initCalls[init].Preparing? && Ready !in w.log then [Ready] else []
      case Report(operation, code) =>
        if operation < |w.operations| && w.operations[operation].Left? then [Notice(code)] else []
      case Announce(code) => [Notice(code)]
      case BeginShutdown => if w.sessions.starting.None? then [EventBus.Shutdown] else []
      case _ => []
  }

  /** Every step publishes exactly that: nothing is published behind Shutdown, and
      nothing that was reported before it is dropped. */
  lemma {:induction false} PublishesExactly(w: World, step: Step)
    requires Inv(w)
    ensures Next(w, step).log == w.log + PublishedBy(w, step)
  {
    hide Refines, Publish, GateInv, ShutdownInv, SnapshotsInv, Sessions.Inv, Sessions.Next;
    assert w.log + [] == w.log;
  }

  /** A snapshot shows the present: the two events that were published, and a cursor
      behind everything. */
  lemma {:induction false} SnapshotsShowThePresent(w: World)
    requires Inv(w)
    ensures Next(w, TakeSnapshot).snapshots
         == w.snapshots + [Snapshot(Ready in w.log, EventBus.Shutdown in w.log, |w.log|)]
  {
    hide GateInv, ShutdownInv, SnapshotsInv, Sessions.Inv;
  }

  /** An operation gets in exactly while nothing has shut the gate, and counts. */
  lemma {:induction false} EntersExactly(w: World, operation: nat)
    requires Inv(w) && operation < |w.operations| && w.operations[operation].HasHandle?
    ensures var next := Next(w, Enter(operation));
            && next.operations[operation] ==
               (if w.shutdown.Waiting? || w.shutdown.Returned? then OperationDone else Running)
            && next.gate.Some? && next.gate.value.active == Count(next.operations)
  {
    hide Refines, LogInv, SnapshotsInv, Sessions.Inv, Count;
    OperationKeepsInv(w, Enter(operation));
  }

  /** Once the sweep through the sessions is done and nothing runs any more, the
      shutdown's own steps bring it to its return. */
  lemma {:induction false} ShutdownReturns(w: World)
    requires Inv(w) && w.closed && w.sessions.sweep.Swept? && NoneRunning(w)
    ensures Next(Next(Next(w, SessionsAsked), Retire), Wake).shutdown.Returned?
  {
    hide Refines, LogInv, SnapshotsInv, Sessions.Inv;
    CountsRunning(w.operations);
  }

  /** What a call to initialize gets: nothing from a closed backend, a snapshot at
      once from an initialized one, and otherwise a snapshot once it has prepared,
      unless the backend was closed meanwhile. */
  lemma {:induction false} InitializeAnswers(w: World, init: nat)
    requires Inv(w)
    ensures var next := Next(w, BeginInitialize);
            && (EventBus.Shutdown in w.log ==> next == w)
            && (EventBus.Shutdown !in w.log && Ready in w.log ==>
                  next == w.(snapshots := w.snapshots + [Snapshot(true, false, |w.log|)]))
            && (EventBus.Shutdown !in w.log && Ready !in w.log ==>
                  next == w.(initCalls := w.initCalls + [Preparing]))
    ensures init < |w.initCalls| && w.initCalls[init].Preparing? ==>
              var next := Next(w, CommitInitialize(init));
              && next.initCalls == w.initCalls[init := InitDone]
              && next.snapshots == w.snapshots
                 + (if EventBus.Shutdown in w.log then [] else [Snapshot(true, false, |next.log|)])
  {
    hide Publish, GateInv, ShutdownInv, SnapshotsInv, Sessions.Inv;
    assert w.snapshots + [] == w.snapshots;
    if init < |w.initCalls| && w.initCalls[init].Preparing? && !w.closed && !w.initialized {
      PublishRefines(w.bus, w.log, Ready);
    }
  }

  /** A shutdown that retires the data layer, or that wakes up, returns if nothing
      runs and sleeps until it is woken if something does. */
  lemma {:induction false} SleepsExactlyWhileSomethingRuns(w: World, step: Step)
    requires Inv(w)
    requires (step == Retire && w.shutdown.Retiring?) || (step == Wake && w.shutdown == Waiting(true))
    ensures Next(w, step).shutdown == if NoneRunning(w) then Returned else Waiting(false)
  {
    hide Refines, LogInv, SnapshotsInv, Sessions.Inv;
    CountsRunning(w.operations);
  }

  /** An operation that runs can leave, and the last one to leave is the one that
      lets a sleeping shutdown return. */
  lemma {:induction false} LastToLeaveWakes(w: World, operation: nat)
    requires Inv(w) && operation < |w.operations| && w.operations[operation].Running?
    ensures var next := Next(w, Leave(operation));
            && next.operations == w.operations[operation := Left]
            && (w.shutdown.Waiting? ==>
                  (Next(next, Wake).shutdown.Returned? <==> NoneRunning(next)))
  {
    hide Refines, LogInv, SnapshotsInv, Sessions.Inv, Count;
    OperationKeepsInv(w, Leave(operation));
    CountsRunning(Next(w, Leave(operation)).operations);
  }

  // -------------------------------------------------------------------
  // The backend object
  // -------------------------------------------------------------------

  /** The gate of the data layer, as the object its operations share. */
  class OperationGate {
    var retired: bool
    var activeOperations: nat

    function Value(): Gate
      reads this
    {
      Gate(retired, activeOperations)
    }

    constructor ()
      ensures Value() == Gate(false, 0)
    {
      retired, activeOperations := false, 0;
    }
  }

  class Backend {
    var initialized: bool
    var closed: bool
    var bus: Bus
    var data: OperationGate?
    var sessions: Sessions.Table
    var shutdown: Shutdown
    ghost var log: seq<BackendEvent>

    /** The state that the calls in flight and the snapshots taken complete. */
    ghost function State(initCalls: seq<InitCall>, operations: seq<Operation>, snapshots: seq<Snapshot>): World
      reads this, data
    {
      var gate := if data == null then None else Some(data.Value());
      World(initialized, closed, bus, gate, shutdown, initCalls, operations, sessions, snapshots, log)
    }

    constructor ()
      ensures State([], [], []) == FRESH
    {
      initialized, closed, bus, data, shutdown, log := false, false, EMPTY_BUS, null, NotBegun, [];
      sessions := Sessions.EMPTY;
    }

    method PublishEvent(event: BackendEvent)
      modifies this`bus, this`log
      ensures bus == Publish(old(bus), event) && log == Append(old(bus), old(log), event)
    {
      log := Append(bus, log, event);
      bus := Publish(bus, event);
    }

    /** The second half of initialize, after the directories were prepared. */
    method CommitInit(ghost calls: seq<InitCall>, ghost operations: seq<Operation>, ghost snapshots: seq<Snapshot>,
        ghost call: nat)
      returns (snapshot: Option<Snapshot>)
      requires call < |calls| && calls[call].Preparing?
      modifies this
      ensures snapshot.Some? <==> !old(closed)
      ensures State(calls[call := InitDone], operations,
                    if snapshot.Some? then snapshots + [snapshot.value] else snapshots)
           == Next(old(State(calls, operations, snapshots)), CommitInitialize(call))
    {
      if closed {
        return None;
      }
      if !initialized {
        initialized := true;
        data := new OperationGate();
        PublishEvent(Ready);
      }
      snapshot := Some(Snapshot(initialized, closed, LatestSequence(bus)));
    }

    /** The first half of shutdown; the rest follows only where it returns true. */
    method CloseDoor(ghost calls: seq<InitCall>, ghost operations: seq<Operation>, ghost snapshots: seq<Snapshot>)
      returns (first: bool)
      requires sessions.starting.None? && (closed || sessions.sweep.Open?)
      modifies this
      ensures first <==> !old(closed)
      ensures State(calls, operations, snapshots) == Next(old(State(calls, operations, snapshots)), BeginShutdown)
    {
      if closed {
        return false;
      }
      closed := true;
      PublishEvent(EventBus.Shutdown);
      bus := Close(bus);
      shutdown := Asking;
      sessions := sessions.(sweep := Sessions.Shut);
      first := true;
    }

    method EnterOperation(ghost calls: seq<InitCall>, ghost operations: seq<Operation>, ghost snapshots: seq<Snapshot>,
        ghost operation: nat)
      returns (ok: bool)
      requires operation < |operations| && operations[operation].HasHandle? && data != null
      modifies data
      ensures ok <==> !old(data.retired)
      ensures State(calls, operations[operation := if ok then Running else OperationDone], snapshots)
           == Next(old(State(calls, operations, snapshots)), Enter(operation))
    {
      if data.retired {
        return false;
      }
      data.activeOperations := data.activeOperations + 1;
      ok := true;
    }

    /** Leaving wakes whoever waits for the last operation. */
    method LeaveOperation(ghost calls: seq<InitCall>, ghost operations: seq<Operation>, ghost snapshots: seq<Snapshot>,
        ghost operation: nat)
      requires operation < |operations| && operations[operation].Running? && data != null
      modifies data, this`shutdown
      ensures State(calls, operations[operation := Left], snapshots)
           == Next(old(State(calls, operations, snapshots)), Leave(operation))
    {
      if data.activeOperations > 0 {
        data.activeOperations := data.activeOperations - 1;
      }
      if data.activeOperations == 0 && shutdown.Waiting? {
        shutdown := Waiting(true);
      }
    }

    /** Retires the data layer, up to the point where the caller would block. */
    method RetireData(ghost calls: seq<InitCall>, ghost operations: seq<Operation>, ghost snapshots: seq<Snapshot>)
      requires shutdown.Retiring?
      modifies this`shutdown, data
      ensures State(calls, operations, snapshots) == Next(old(State(calls, operations, snapshots)), Retire)
    {
      shutdown := Returned;
      if data != null {
        data.retired := true;
        if data.activeOperations > 0 {
          shutdown := Waiting(false);
        }
      }
    }
  }
}
