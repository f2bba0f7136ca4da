/** One live forwarding session per rule: starts and stops of a rule hold that
    rule's lock, and the table of locks keeps only those somebody holds. Tasks,
    session workers and a shutdown interleave step by step. */
module ForwardRegistry {
  import opened Results
  import opened ForwardPhases

  /** A host and one of its rules. */
  type Key = (string, string)

  /** A session, whether it was asked to close, and how many Close commands were
      sent to its worker. Its channel is in place before it is registered. */
  datatype Session = Session(key: Key, state: State, asked: bool, sent: nat)
  {
    /** Running, and nobody has asked it to stop. */
    predicate Live() {
      !state.phase.IsTerminal() && !asked
    }
  }

  datatype Outcome = Existing(id: nat) | Created(id: nat) | WasRunning | NotFound | Refused

  /** Where a start or a stop stands. It holds its lock's handle from the time
      it got it, and the lock itself once inside. */
  datatype Task =
    | StartWaiting(key: Key, handle: nat)
    | StartInside(key: Key, handle: nat)
    | StartConnecting(key: Key, handle: nat)
    | StopWaiting(key: Key, handle: nat)
    | StopInside(key: Key, handle: nat)
    | StopDraining(key: Key, handle: nat)
    | Finished(outcome: Outcome)
  {
    predicate Inside() {
      StartInside? || StartConnecting? || StopInside? || StopDraining?
    }
  }

  /** A shutdown closes the door, lists the sessions, asks them one by one to
      stop, and drops them. */
  datatype Shutdown = Open | Closing | Asking(ids: seq<nat>) | Asked | Cleared

  datatype World = World(
    all: seq<Session>,
    registered: map<Key, nat>,
    locks: map<Key, nat>,
    nextLock: nat,
    tasks: seq<Task>,
    shutdown: Shutdown)

  const EMPTY := World([], map[], map[], 0, [], Open)

  // -------------------------------------------------------------------
  // The table of locks
  // -------------------------------------------------------------------

  /** Somebody still holds a handle of this lock. */
  predicate Owned(tasks: seq<Task>, handle: nat) {
    exists i :: 0 <= i < |tasks| && !tasks[i].Finished? && tasks[i].handle == handle
  }

  function Pruned(locks: map<Key, nat>, tasks: seq<Task>): map<Key, nat> {
    map k | k in locks && Owned(tasks, locks[k]) :: locks[k]
  }

  /** The lock of a rule: the one its holders share, or a new one. */
  function StartLock(locks: map<Key, nat>, nextLock: nat, tasks: seq<Task>, key: Key): (map<Key, nat>, nat, nat) {
    var pruned := Pruned(locks, tasks);
    if key in pruned then (pruned, nextLock, pruned[key]) else (pruned[key := nextLock], nextLock + 1, nextLock)
  }

  predicate Free(tasks: seq<Task>, handle: nat) {
    forall i :: 0 <= i < |tasks| && tasks[i].Inside() ==> tasks[i].handle != handle
  }

  // -------------------------------------------------------------------
  // Steps
  // -------------------------------------------------------------------

  datatype Step =
    | CallStart(key: Key)
    | CallStop(key: Key)
    | Proceed(task: nat)
    | Abandon(task: nat)
    | Work(id: nat, op: Op)
    | AskToClose(id: nat)
    | Disconnect(id: nat)
    | CloseDoor
    | ListSessions(ids: seq<nat>)
    | AskNext
    | Clear

  /** The running session registered for the rule, if there is one. */
  function Active(w: World, key: Key): Option<nat> {
    if key in w.registered && w.registered[key] < |w.all| && !w.all[w.registered[key]].state.phase.IsTerminal() then
      Some(w.registered[key])
    else
      None
  }

  function WithOp(w: World, id: nat, op: Op): World {
    if id < |w.all| then w.(all := w.all[id := w.all[id].(state := Apply(w.all[id].state, op))]) else w
  }

  function RequestClose(w: World, id: nat): World {
    if id < |w.all| then
      var s := w.all[id];
      w.(all := w.all[id := s.(asked := true, state := Apply(s.state, Enter(Stopping)), sent := s.sent + 1)])
    else
      w
  }

  /** Sessions dropped by a shutdown are marked as ended. */
  function FinishAll(all: seq<Session>, ids: set<nat>): (r: seq<Session>)
    ensures |r| == |all|
  {
    seq(|all|, i requires 0 <= i < |all| =>
      if i in ids && !all[i].state.phase.IsTerminal() then
        all[i].(state := Apply(all[i].state, MarkStopped))
      else
        all[i])
  }

  function Register(w: World, key: Key): World {
    w.(all := w.all + [Session(key, INITIAL, false, 0)], registered := w.registered[key := |w.all|])
  }

  function Goto(w: World, task: nat, next: Task): World
    requires task < |w.tasks|
  {
    w.(tasks := w.tasks[task := next])
  }

  function Enqueue(w: World, key: Key, stop: bool): World {
    var (locks, nextLock, handle) := StartLock(w.locks, w.nextLock, w.tasks, key);
    w.(locks := locks, nextLock := nextLock,
       tasks := w.tasks + [if stop then StopWaiting(key, handle) else StartWaiting(key, handle)])
  }

  function ProceedTask(w: World, task: nat): World
    requires task < |w.tasks|
  {
    match w.tasks[task]
    case StartWaiting(key, handle) =>
      if Free(w.tasks, handle) then Goto(w, task, StartInside(key, handle)) else w
    case StartInside(key, handle) =>
      var active := Active(w, key);
      Goto(w, task, if active.Some? then Finished(Existing(active.value)) else StartConnecting(key, handle))
    case StartConnecting(key, handle) =>
      if w.shutdown.Open? then
        Goto(Register(w, key), task, Finished(Created(|w.all|)))
      else
        Goto(w, task, Finished(Refused))
    case StopWaiting(key, handle) =>
      if Free(w.tasks, handle) then Goto(w, task, StopInside(key, handle)) else w
    case StopInside(key, handle) =>
      if key in w.registered then
        Goto(RequestClose(w, w.registered[key]), task, StopDraining(key, handle))
      else
        Goto(w, task, Finished(NotFound))
    case StopDraining(key, handle) =>
      Goto(w.(registered := w.registered - {key}), task, Finished(WasRunning))
    case Finished(_) => w
  }

  function Next(w: World, step: Step): World {
    match step
    case CallStart(key) => Enqueue(w, key, false)
    case CallStop(key) => Enqueue(w, key, true)
    case Proceed(task) => if task < |w.tasks| then ProceedTask(w, task) else w
    // Any error, or the caller giving up, drops the lock.
    case Abandon(task) => if task < |w.tasks| && !w.tasks[task].Finished? then Goto(w, task, Finished(Refused)) else w
    case Work(id, op) => WithOp(w, id, op)
    case AskToClose(id) => RequestClose(w, id)
    // The end of a disconnect, which holds no lock and removes by key.
    case Disconnect(id) =>
      if id < |w.all| && w.all[id].asked then w.(registered := w.registered - {w.all[id].key}) else w
    case CloseDoor => if w.shutdown.Open? then w.(shutdown := Closing) else w
    case ListSessions(ids) =>
      if w.shutdown.Closing? && (forall k :: k in w.registered ==> w.registered[k] in ids) then
        w.(shutdown := Asking(ids))
      else
        w
    case AskNext =>
      if !w.shutdown.Asking? then
        w
      else if w.shutdown.ids == [] then
        w.(shutdown := Asked)
      else
        RequestClose(w.(shutdown := Asking(w.shutdown.ids[1..])), w.shutdown.ids[0])
    case Clear =>
      if w.shutdown.Asked? then
        w.(all := FinishAll(w.all, w.registered.Values), registered := map[], shutdown := Cleared)
      else
        w
  }

  function RunSteps(w: World, steps: seq<Step>): World {
    if steps == [] then w else Next(RunSteps(w, steps[..|steps| - 1]), steps[|steps| - 1])
  }

  // -------------------------------------------------------------------
  // Invariants
  // -------------------------------------------------------------------

  /** Unfinished tasks of one rule hold one lock, and no lock has two inside. */
  predicate LocksInv(locks: map<Key, nat>, nextLock: nat, tasks: seq<Task>) {
    && (forall i :: 0 <= i < |tasks| && !tasks[i].Finished? ==>
        tasks[i].key in locks && locks[tasks[i].key] == tasks[i].handle)
    && (forall i, j :: 0 <= i < j < |tasks| && tasks[i].Inside() && tasks[j].Inside() ==>
        tasks[i].handle != tasks[j].handle)
    && (forall k :: k in locks ==> locks[k] < nextLock)
    && (forall k, l :: k in locks && l in locks && locks[k] == locks[l] ==> k == l)
  }

  predicate RegisteredInv(all: seq<Session>, registered: map<Key, nat>) {
    forall k :: k in registered ==> registered[k] < |all| && all[registered[k]].key == k
  }

  /** A live session is the registered one of its rule. */
  predicate LiveInv(all: seq<Session>, registered: map<Key, nat>) {
    forall id :: 0 <= id < |all| && all[id].Live() ==> all[id].key in registered && registered[all[id].key] == id
  }

  predicate NoneLive(all: seq<Session>, key: Key) {
    forall id :: 0 <= id < |all| && all[id].key == key ==> !all[id].Live()
  }

  /** What a task inside the lock of its rule has already established. */
  predicate TaskInv(w: World, task: Task) {
    && (task.StartConnecting? ==> Active(w, task.key).None?)
    && (task.StopDraining? ==> NoneLive(w.all, task.key))
  }

  predicate TasksInv(w: World) {
    forall i :: 0 <= i < |w.tasks| ==> TaskInv(w, w.tasks[i])
  }

  predicate ShutdownInv(all: seq<Session>, shutdown: Shutdown) {
    && (shutdown.Asking? ==> forall id :: 0 <= id < |all| && all[id].Live() ==> id in shutdown.ids)
    && (shutdown.Asked? || shutdown.Cleared? ==> forall id :: 0 <= id < |all| ==> !all[id].Live())
  }

  predicate Inv(w: World) {
    && LocksInv(w.locks, w.nextLock, w.tasks)
    && RegisteredInv(w.all, w.registered)
    && LiveInv(w.all, w.registered)
    && TasksInv(w)
    && ShutdownInv(w.all, w.shutdown)
  }

  /** A disconnect that would drop a newer, live session of its rule. */
  predicate DropsALiveSession(w: World, step: Step) {
    && step.Disconnect? && step.id < |w.all| && w.all[step.id].asked
    && w.all[step.id].key in w.registered
    && w.registered[w.all[step.id].key] < |w.all|
    && w.all[w.registered[w.all[step.id].key]].Live()
  }

  lemma LocksAfterCall(w: World, key: Key, stop: bool)
    requires LocksInv(w.locks, w.nextLock, w.tasks)
    ensures LocksInv(Enqueue(w, key, stop).locks, Enqueue(w, key, stop).nextLock, Enqueue(w, key, stop).tasks)
  {
    forall i | 0 <= i < |w.tasks| && !w.tasks[i].Finished?
      ensures Owned(w.tasks, w.tasks[i].handle)
    {
    }
  }

  lemma LocksAfterMove(w: World, task: nat, next: Task)
    requires LocksInv(w.locks, w.nextLock, w.tasks) && task < |w.tasks| && !w.tasks[task].Finished?
    requires next.Finished? || (next.key == w.tasks[task].key && next.handle == w.tasks[task].handle)
    requires next.Inside() ==> w.tasks[task].Inside() || Free(w.tasks, next.handle)
    ensures LocksInv(w.locks, w.nextLock, w.tasks[task := next])
  {
  }

  /** Sessions only ever move away from being live, and never change rules. */
  predicate Weaker(all: seq<Session>, next: seq<Session>) {
    && |next| == |all|
    && forall id :: 0 <= id < |all| ==>
         && next[id].key == all[id].key
         && (next[id].Live() ==> all[id].Live())
         && (all[id].state.phase.IsTerminal() ==> next[id].state.phase.IsTerminal())
  }

  /** `k`'s entry may go if its session is not live. */
  predicate Dropped(w: World, registered: map<Key, nat>) {
    && (forall k :: k in registered ==> k in w.registered && registered[k] == w.registered[k])
    && (forall k :: k in w.registered && k !in registered ==>
        w.registered[k] < |w.all| && !w.all[w.registered[k]].Live())
  }

  lemma SessionsWeaken(w: World, next: World)
    requires RegisteredInv(w.all, w.registered) && LiveInv(w.all, w.registered)
    requires TasksInv(w) && ShutdownInv(w.all, w.shutdown)
    requires Weaker(w.all, next.all) && Dropped(w, next.registered)
    requires next.tasks == w.tasks && next.shutdown == w.shutdown
    ensures RegisteredInv(next.all, next.registered) && LiveInv(next.all, next.registered) && TasksInv(next)
    ensures ShutdownInv(next.all, next.shutdown)
  {
    forall i | 0 <= i < |next.tasks|
      ensures TaskInv(next, next.tasks[i])
    {
      assert TaskInv(w, w.tasks[i]);
    }
  }

  lemma AskedWeakens(w: World, id: nat)
    ensures Weaker(w.all, RequestClose(w, id).all)
    ensures id < |w.all| ==> !RequestClose(w, id).all[id].Live()
  {
  }

  /** Moving a task along changes nothing else. */
  lemma MoveKeepsInv(w: World, task: nat, next: Task)
    requires Inv(w) && task < |w.tasks| && !w.tasks[task].Finished?
    requires next.Finished? || (next.key == w.tasks[task].key && next.handle == w.tasks[task].handle)
    requires next.Inside() ==> w.tasks[task].Inside() || Free(w.tasks, next.handle)
    requires TaskInv(w, next)
    ensures Inv(Goto(w, task, next))
  {
    LocksAfterMove(w, task, next);
    forall i | 0 <= i < |w.tasks|
      ensures TaskInv(Goto(w, task, next), Goto(w, task, next).tasks[i])
    {
      assert TaskInv(w, w.tasks[i]);
    }
  }

  lemma {:induction false} CallKeepsInv(w: World, key: Key, stop: bool)
    requires Inv(w)
    ensures Inv(Enqueue(w, key, stop))
  {
    hide LocksInv, Pruned;
    LocksAfterCall(w, key, stop);
    var next := Enqueue(w, key, stop);
    forall i | 0 <= i < |next.tasks|
      ensures TaskInv(next, next.tasks[i])
    {
      if i < |w.tasks| {
        assert TaskInv(w, w.tasks[i]);
      }
    }
  }

  /** Registering is safe because whoever is inside the rule's lock has seen no
      running session there. */
  lemma RegisterKeepsInv(w: World, task: nat)
    requires Inv(w) && task < |w.tasks| && w.tasks[task].StartConnecting? && w.shutdown.Open?
    ensures Inv(Next(w, Proceed(task)))
  {
    var key := w.tasks[task].key;
    var created := Register(w, key);
    var next := Next(w, Proceed(task));
    LocksAfterMove(w, task, Finished(Created(|w.all|)));
    assert TaskInv(w, w.tasks[task]);
    forall id | 0 <= id < |next.all| && next.all[id].Live()
      ensures next.all[id].key in next.registered && next.registered[next.all[id].key] == id
    {
      if id < |w.all| {
        assert w.all[id].Live();
      }
    }
    forall i | 0 <= i < |next.tasks|
      ensures TaskInv(next, next.tasks[i])
    {
      assert TaskInv(w, w.tasks[i]);
    }
  }

  lemma {:induction false} StopKeepsInv(w: World, task: nat)
    requires Inv(w) && task < |w.tasks| && w.tasks[task].StopInside?
    ensures Inv(Next(w, Proceed(task)))
  {
    var key, handle := w.tasks[task].key, w.tasks[task].handle;
    if key in w.registered {
      var asked := RequestClose(w, w.registered[key]);
      AskedWeakens(w, w.registered[key]);
      SessionsWeaken(w, asked);
      MoveKeepsInv(asked, task, StopDraining(key, handle));
    } else {
      MoveKeepsInv(w, task, Finished(NotFound));
    }
  }

  lemma DropKeepsInv(w: World, key: Key)
    requires Inv(w)
    requires key in w.registered ==> !w.all[w.registered[key]].Live()
    ensures Inv(w.(registered := w.registered - {key}))
  {
    SessionsWeaken(w, w.(registered := w.registered - {key}));
  }

  lemma {:induction false} ProceedKeepsInv(w: World, task: nat)
    requires Inv(w) && task < |w.tasks|
    ensures Inv(ProceedTask(w, task))
  {
    assert TaskInv(w, w.tasks[task]);
    match w.tasks[task]
    case StartWaiting(key, handle) =>
      if Free(w.tasks, handle) {
        MoveKeepsInv(w, task, StartInside(key, handle));
      }
    case StartInside(key, handle) =>
      var active := Active(w, key);
      MoveKeepsInv(w, task, if active.Some? then Finished(Existing(active.value)) else StartConnecting(key, handle));
    case StartConnecting(key, handle) =>
      if w.shutdown.Open? {
        RegisterKeepsInv(w, task);
      } else {
        MoveKeepsInv(w, task, Finished(Refused));
      }
    case StopWaiting(key, handle) =>
      if Free(w.tasks, handle) {
        MoveKeepsInv(w, task, StopInside(key, handle));
      }
    case StopInside(key, handle) =>
      StopKeepsInv(w, task);
    case StopDraining(key, handle) =>
      DropKeepsInv(w, key);
      MoveKeepsInv(w.(registered := w.registered - {key}), task, Finished(WasRunning));
    case Finished(_) =>
  }

  lemma TasksIgnoreShutdown(w: World, shutdown: Shutdown)
    requires TasksInv(w)
    ensures TasksInv(w.(shutdown := shutdown))
  {
    forall i | 0 <= i < |w.tasks|
      ensures TaskInv(w.(shutdown := shutdown), w.tasks[i])
    {
      assert TaskInv(w, w.tasks[i]);
    }
  }

  lemma ListKeepsInv(w: World, ids: seq<nat>)
    requires Inv(w) && w.shutdown.Closing? && forall k :: k in w.registered ==> w.registered[k] in ids
    ensures Inv(w.(shutdown := Asking(ids)))
  {
    TasksIgnoreShutdown(w, Asking(ids));
    forall id | 0 <= id < |w.all| && w.all[id].Live()
      ensures id in ids
    {
      assert w.registered[w.all[id].key] == id;
    }
  }

  lemma AskKeepsInv(w: World)
    requires Inv(w) && w.shutdown.Asking?
    ensures Inv(Next(w, AskNext))
  {
    hide LocksInv, RegisteredInv, LiveInv, TasksInv, Apply;
    if w.shutdown.ids == [] {
      TasksIgnoreShutdown(w, Asked);
    } else {
      var id, rest := w.shutdown.ids[0], w.shutdown.ids[1..];
      var asked := RequestClose(w, id);
      AskedWeakens(w, id);
      SessionsWeaken(w, asked);
      TasksIgnoreShutdown(asked, Asking(rest));
      forall live | 0 <= live < |asked.all| && asked.all[live].Live()
        ensures live in rest
      {
        assert live in w.shutdown.ids;
      }
    }
  }

  lemma ClearKeepsInv(w: World)
    requires Inv(w) && w.shutdown.Asked?
    ensures Inv(Next(w, Clear))
  {
    hide LocksInv, Apply;
    var next := Next(w, Clear);
    assert Weaker(w.all, next.all) by {
    }
    SessionsWeaken(w, next.(shutdown := Asked));
    TasksIgnoreShutdown(next.(shutdown := Asked), Cleared);
  }

  lemma WorkKeepsInv(w: World, id: nat, op: Op)
    requires Inv(w)
    ensures Inv(WithOp(w, id, op))
  {
    SessionsWeaken(w, WithOp(w, id, op));
  }

  lemma AskedKeepsInv(w: World, id: nat)
    requires Inv(w)
    ensures Inv(RequestClose(w, id))
  {
    AskedWeakens(w, id);
    SessionsWeaken(w, RequestClose(w, id));
  }

  lemma AbandonKeepsInv(w: World, task: nat)
    requires Inv(w)
    ensures Inv(Next(w, Abandon(task)))
  {
    if task < |w.tasks| && !w.tasks[task].Finished? {
      MoveKeepsInv(w, task, Finished(Refused));
    }
  }

  lemma DisconnectKeepsInv(w: World, id: nat)
    requires Inv(w)
    ensures Inv(Next(w, Disconnect(id))) <==> !DropsALiveSession(w, Disconnect(id))
  {
    hide LocksInv, TasksInv, ShutdownInv;
    if DropsALiveSession(w, Disconnect(id)) {
      var key := w.all[id].key;
      assert Next(w, Disconnect(id)).all[w.registered[key]].Live() && key !in Next(w, Disconnect(id)).registered;
    } else if id < |w.all| && w.all[id].asked {
      DropKeepsInv(w, w.all[id].key);
    }
  }

  lemma ShutdownKeepsInv(w: World, step: Step)
    requires Inv(w) && (step.CloseDoor? || step.ListSessions? || step.AskNext? || step.Clear?)
    ensures Inv(Next(w, step))
  {
    hide LocksInv, RegisteredInv, LiveInv, TasksInv;
    match step
    case CloseDoor => TasksIgnoreShutdown(w, Closing);
    case ListSessions(ids) =>
      if w.shutdown.Closing? && (forall k :: k in w.registered ==> w.registered[k] in ids) {
        ListKeepsInv(w, ids);
      }
    case AskNext =>
      if w.shutdown.Asking? {
        AskKeepsInv(w);
      }
    case Clear =>
      if w.shutdown.Asked? {
        ClearKeepsInv(w);
      }
    case _ =>
  }

  /** Every step keeps the invariant, except a disconnect that drops a newer
      session of its rule while that one is live. */
  lemma {:induction false} StepKeepsInv(w: World, step: Step)
    requires Inv(w)
    ensures Inv(Next(w, step)) <==> !DropsALiveSession(w, step)
  {
    hide Inv;
    match step
    case CallStart(key) => CallKeepsInv(w, key, false);
    case CallStop(key) => CallKeepsInv(w, key, true);
    case Proceed(task) =>
      if task < |w.tasks| {
        ProceedKeepsInv(w, task);
      }
    case Abandon(task) => AbandonKeepsInv(w, task);
    case Work(id, op) => WorkKeepsInv(w, id, op);
    case AskToClose(id) => AskedKeepsInv(w, id);
    case Disconnect(id) => DisconnectKeepsInv(w, id);
    case CloseDoor => ShutdownKeepsInv(w, step);
    case ListSessions(_) => ShutdownKeepsInv(w, step);
    case AskNext => ShutdownKeepsInv(w, step);
    case Clear => ShutdownKeepsInv(w, step);
  }

  /** No disconnect of the run drops a live session. */
  predicate Respectful(steps: seq<Step>) {
    forall i :: 0 <= i < |steps| ==> !DropsALiveSession(RunSteps(EMPTY, steps[..i]), steps[i])
  }

  lemma {:induction false} RunKeepsInv(steps: seq<Step>)
    requires Respectful(steps)
    ensures Inv(RunSteps(EMPTY, steps))
  {
    if steps != [] {
      var n := |steps| - 1;
      forall i | 0 <= i < n
        ensures !DropsALiveSession(RunSteps(EMPTY, steps[..n][..i]), steps[..n][i])
      {
        assert steps[..n][..i] == steps[..i];
      }
      RunKeepsInv(steps[..n]);
      StepKeepsInv(RunSteps(EMPTY, steps[..n]), steps[n]);
    }
  }

  // -------------------------------------------------------------------
  // What every run guarantees
  // -------------------------------------------------------------------

  /** At most one live session per rule, and it is the registered one. */
  lemma {:induction false} OneLiveSessionPerRule(steps: seq<Step>, one: nat, other: nat)
    requires Respectful(steps)
    requires one < |RunSteps(EMPTY, steps).all| && other < |RunSteps(EMPTY, steps).all|
    requires RunSteps(EMPTY, steps).all[one].Live() && RunSteps(EMPTY, steps).all[other].Live()
    requires RunSteps(EMPTY, steps).all[one].key == RunSteps(EMPTY, steps).all[other].key
    ensures one == other
    ensures Active(RunSteps(EMPTY, steps), RunSteps(EMPTY, steps).all[one].key) == Some(one)
  {
    RunKeepsInv(steps);
  }

  predicate WorldLocks(w: World) {
    LocksInv(w.locks, w.nextLock, w.tasks)
  }

  /** Locks survive every step, a disconnect that drops a live session included. */
  lemma {:induction false} StepKeepsLocks(w: World, step: Step)
    requires WorldLocks(w)
    ensures WorldLocks(Next(w, step))
  {
    match step
    case CallStart(key) => LocksAfterCall(w, key, false);
    case CallStop(key) => LocksAfterCall(w, key, true);
    case Proceed(task) =>
      if task < |w.tasks| {
        ProceedKeepsLocks(w, task);
      }
    case Abandon(task) =>
      if task < |w.tasks| && !w.tasks[task].Finished? {
        LocksAfterMove(w, task, Finished(Refused));
      }
    case _ => LeavesLocks(w, step);
  }

  lemma LeavesLocks(w: World, step: Step)
    requires !step.CallStart? && !step.CallStop? && !step.Proceed? && !step.Abandon?
    ensures Next(w, step).locks == w.locks && Next(w, step).nextLock == w.nextLock && Next(w, step).tasks == w.tasks
  {
  }

  lemma ProceedKeepsLocks(w: World, task: nat)
    requires WorldLocks(w) && task < |w.tasks|
    ensures WorldLocks(ProceedTask(w, task))
  {
    hide LocksInv;
    var next := ProceedTask(w, task);
    assert next.locks == w.locks && next.nextLock == w.nextLock;
    if next.tasks != w.tasks {
      assert next.tasks == w.tasks[task := next.tasks[task]];
      LocksAfterMove(w, task, next.tasks[task]);
    }
  }

  lemma {:induction false} RunKeepsLocks(steps: seq<Step>)
    ensures WorldLocks(RunSteps(EMPTY, steps))
  {
    hide LocksInv, Next;
    if steps != [] {
      RunKeepsLocks(steps[..|steps| - 1]);
      StepKeepsLocks(RunSteps(EMPTY, steps[..|steps| - 1]), steps[|steps| - 1]);
    } else {
      NoLocks();
    }
  }

  lemma NoLocks()
    ensures WorldLocks(EMPTY)
  {
  }

  /** In every run, everyone waiting for or inside a rule shares one lock, however
      the table was pruned in between; tasks of different rules share none; and no
      two tasks are inside for one rule. */
  lemma {:induction false} HoldersShareTheLock(steps: seq<Step>, one: nat, other: nat)
    requires one < |RunSteps(EMPTY, steps).tasks| && other < |RunSteps(EMPTY, steps).tasks| && one != other
    requires !RunSteps(EMPTY, steps).tasks[one].Finished? && !RunSteps(EMPTY, steps).tasks[other].Finished?
    ensures var tasks := RunSteps(EMPTY, steps).tasks;
            && (tasks[one].key == tasks[other].key <==> tasks[one].handle == tasks[other].handle)
            && !(tasks[one].Inside() && tasks[other].Inside() && tasks[one].key == tasks[other].key)
  {
    RunKeepsLocks(steps);
  }

  /** A start that finds its rule running answers with the live session. */
  lemma {:induction false} StartIsIdempotent(steps: seq<Step>, task: nat, id: nat)
    requires Respectful(steps)
    requires var w := RunSteps(EMPTY, steps);
             && task < |w.tasks| && w.tasks[task].StartInside?
             && id < |w.all| && w.all[id].Live() && w.all[id].key == w.tasks[task].key
    ensures Next(RunSteps(EMPTY, steps), Proceed(task)).tasks[task] == Finished(Existing(id))
    ensures Next(RunSteps(EMPTY, steps), Proceed(task)).all == RunSteps(EMPTY, steps).all
  {
    hide LocksInv, TasksInv, ShutdownInv, RunSteps, Apply;
    RunKeepsInv(steps);
    assert Active(RunSteps(EMPTY, steps), RunSteps(EMPTY, steps).tasks[task].key) == Some(id);
  }

  /** A stop leaves no live session of its rule, also one a start has only just
      created. */
  lemma {:induction false} StopLeavesNoneLive(steps: seq<Step>, task: nat)
    requires Respectful(steps)
    requires task < |RunSteps(EMPTY, steps).tasks| && RunSteps(EMPTY, steps).tasks[task].StopInside?
    ensures NoneLive(Next(RunSteps(EMPTY, steps), Proceed(task)).all, RunSteps(EMPTY, steps).tasks[task].key)
  {
    RunKeepsInv(steps);
  }

  predicate Down(w: World) {
    w.shutdown.Asked? || w.shutdown.Cleared?
  }

  lemma {:induction false} StaysDownForGood(w: World, more: seq<Step>)
    requires Down(w)
    ensures Down(RunSteps(w, more)) && |RunSteps(w, more).all| == |w.all|
  {
    if more != [] {
      StaysDownForGood(w, more[..|more| - 1]);
    }
  }

  lemma {:induction false} RunAppend(w: World, steps: seq<Step>, more: seq<Step>)
    ensures RunSteps(w, steps + more) == RunSteps(RunSteps(w, steps), more)
  {
    if more == [] {
      assert steps + more == steps;
    } else {
      var n := |more| - 1;
      assert (steps + more)[..|steps + more| - 1] == steps + more[..n];
      RunAppend(w, steps, more[..n]);
    }
  }

  /** Whoever was asked was sent Close, in every run. */
  predicate AskedWereSent(all: seq<Session>) {
    forall id :: 0 <= id < |all| ==> (all[id].asked <==> all[id].sent > 0)
  }

  lemma StepKeepsSent(w: World, step: Step)
    requires AskedWereSent(w.all)
    ensures AskedWereSent(Next(w, step).all)
  {
    hide Apply, Pruned;
  }

  lemma {:induction false} RunKeepsSent(steps: seq<Step>)
    ensures AskedWereSent(RunSteps(EMPTY, steps).all)
  {
    hide AskedWereSent, Next;
    if steps != [] {
      RunKeepsSent(steps[..|steps| - 1]);
      StepKeepsSent(RunSteps(EMPTY, steps[..|steps| - 1]), steps[|steps| - 1]);
    } else {
      NoneAsked();
    }
  }

  lemma NoneAsked()
    ensures AskedWereSent(EMPTY.all)
  {
  }

  /** Once a shutdown has asked everyone it listed, Close was sent to the worker of
      every session ever created, unless that session had ended; no session is
      live, none is created, and none will be. */
  lemma {:induction false} ShutdownMissesNothing(steps: seq<Step>, more: seq<Step>)
    requires Respectful(steps + more)
    requires Down(RunSteps(EMPTY, steps))
    ensures var all := RunSteps(EMPTY, steps + more).all;
            forall id :: 0 <= id < |all| ==> !all[id].Live() && (all[id].state.phase.IsTerminal() || all[id].sent > 0)
    ensures |RunSteps(EMPTY, steps + more).all| == |RunSteps(EMPTY, steps).all|
  {
    RunKeepsInv(steps + more);
    RunKeepsSent(steps + more);
    RunAppend(EMPTY, steps, more);
    StaysDownForGood(RunSteps(EMPTY, steps), more);
  }

  // -------------------------------------------------------------------
  // What each call achieves
  // -------------------------------------------------------------------

  /** Asking a session to stop sends Close to its worker and, unless it has ended,
      shows it as stopping; no other session changes. */
  lemma AskingStops(w: World, id: nat)
    requires id < |w.all|
    ensures var asked := RequestClose(w, id);
            && asked == w.(all := asked.all) && |asked.all| == |w.all|
            && asked.all[id].asked && asked.all[id].sent == w.all[id].sent + 1
            && asked.all[id].state.phase
               == (if w.all[id].state.phase.IsTerminal() then w.all[id].state.phase else Stopping)
            && forall other :: 0 <= other < |w.all| && other != id ==> asked.all[other] == w.all[other]
  {
  }

  /** A stop answers whether its rule had a session, and leaves none registered. */
  lemma {:induction false} StopsAnswerTruly(w: World, task: nat)
    requires task < |w.tasks| && w.tasks[task].StopInside?
    ensures var key := w.tasks[task].key;
            var once := Next(w, Proceed(task));
            var twice := Next(once, Proceed(task));
            if key !in w.registered then
              once.tasks[task] == Finished(NotFound) && once.registered == w.registered && once.all == w.all
            else
              && once == Goto(RequestClose(w, w.registered[key]), task, StopDraining(key, w.tasks[task].handle))
              && twice.tasks[task] == Finished(WasRunning)
              && twice.registered == w.registered - {key} && twice.all == once.all
  {
  }

  /** A start that found its rule idle creates exactly one session of it, registers
      it and answers with it, unless the door was closed in between. */
  lemma {:induction false} StartsAnswerTruly(w: World, task: nat)
    requires task < |w.tasks| && w.tasks[task].StartConnecting?
    ensures var key := w.tasks[task].key;
            var next := Next(w, Proceed(task));
            if w.shutdown.Open? then
              && next.all == w.all + [Session(key, INITIAL, false, 0)] && next.all[|w.all|].Live()
              && next.registered == w.registered[key := |w.all|]
              && next.tasks[task] == Finished(Created(|w.all|))
            else
              next.all == w.all && next.registered == w.registered && next.tasks[task] == Finished(Refused)
  {
  }

  /** Behind every call the table holds only locks that somebody has. */
  lemma {:induction false} TableIsPruned(w: World, key: Key, stop: bool)
    ensures var next := Enqueue(w, key, stop);
            && key in next.locks
            && (forall k :: k in next.locks ==> Owned(next.tasks, next.locks[k]))
            && (forall k :: k in w.locks && Owned(w.tasks, w.locks[k]) ==>
                  k in next.locks && next.locks[k] == w.locks[k])
  {
    var next := Enqueue(w, key, stop);
    var n := |w.tasks|;
    assert !next.tasks[n].Finished? && next.tasks[n].handle == next.locks[key];
    assert Owned(next.tasks, next.locks[key]);
    forall k | k in next.locks && k != key
      ensures Owned(next.tasks, next.locks[k])
    {
      assert Owned(w.tasks, next.locks[k]);
      var i :| 0 <= i < |w.tasks| && !w.tasks[i].Finished? && w.tasks[i].handle == next.locks[k];
      assert next.tasks[i] == w.tasks[i];
    }
  }

  /** Clearing leaves nothing registered, ends what was and still ran, and touches
      no other session. */
  lemma {:induction false} ClearingEndsAll(w: World)
    requires w.shutdown.Asked? && RegisteredInv(w.all, w.registered)
    ensures var next := Next(w, Clear);
            && next.registered == map[] && |next.all| == |w.all|
            && (forall k :: k in w.registered ==> next.all[w.registered[k]].state.phase.IsTerminal())
            && (forall id :: 0 <= id < |w.all| && (id !in w.registered.Values || w.all[id].state.phase.IsTerminal()) ==>
                  next.all[id] == w.all[id])
  {
    forall k | k in w.registered
      ensures FinishAll(w.all, w.registered.Values)[w.registered[k]].state.phase.IsTerminal()
    {
      assert w.registered[k] in w.registered.Values;
    }
  }

  // -------------------------------------------------------------------
  // What a disconnect can do
  // -------------------------------------------------------------------

  predicate Quiet(w: World) {
    w.shutdown.Open? && forall i :: 0 <= i < |w.tasks| ==> w.tasks[i].Finished?
  }

  function StartSteps(w: World, key: Key): seq<Step> {
    [CallStart(key)] + [Proceed(|w.tasks|)] + [Proceed(|w.tasks|)] + [Proceed(|w.tasks|)]
  }

  lemma RunSnoc(w: World, steps: seq<Step>, step: Step)
    ensures RunSteps(w, steps + [step]) == Next(RunSteps(w, steps), step)
  {
    assert (steps + [step])[..|steps|] == steps;
  }

  lemma RunOneStep(w: World, step: Step)
    ensures RunSteps(w, [step]) == Next(w, step)
  {
    assert [step][..0] == [];
  }

  function StopSteps(w: World, key: Key): seq<Step> {
    [CallStop(key)] + [Proceed(|w.tasks|)] + [Proceed(|w.tasks|)] + [Proceed(|w.tasks|)]
  }

  /** A stop that nothing disturbs asks the rule's session to close, if there is one,
      removes it and says so. */
  lemma {:induction false} UndisturbedStop(w: World, key: Key)
    requires Quiet(w)
    ensures var after := RunSteps(w, StopSteps(w, key));
            && Quiet(after) && |after.tasks| == |w.tasks| + 1
            && if key in w.registered then
                 && after.all == RequestClose(w, w.registered[key]).all
                 && after.registered == w.registered - {key}
                 && after.tasks[|w.tasks|] == Finished(WasRunning)
               else
                 && after.all == w.all && after.registered == w.registered
                 && after.tasks[|w.tasks|] == Finished(NotFound)
  {
    hide StartLock, RunSteps, Pruned, Apply;
    var n := |w.tasks|;
    var called := Next(w, CallStop(key));
    var handle := called.tasks[n].handle;
    var inside := Goto(called, n, StopInside(key, handle));
    assert Next(called, Proceed(n)) == inside;
    RunOneStep(w, CallStop(key));
    RunSnoc(w, [CallStop(key)], Proceed(n));
    RunSnoc(w, [CallStop(key)] + [Proceed(n)], Proceed(n));
    RunSnoc(w, [CallStop(key)] + [Proceed(n)] + [Proceed(n)], Proceed(n));
    if key in w.registered {
      var draining := Goto(RequestClose(inside, w.registered[key]), n, StopDraining(key, handle));
      assert Next(inside, Proceed(n)) == draining;
      assert Next(draining, Proceed(n)) ==
             Goto(draining.(registered := w.registered - {key}), n, Finished(WasRunning));
    } else {
      var ended := Goto(inside, n, Finished(NotFound));
      assert Next(inside, Proceed(n)) == ended && Next(ended, Proceed(n)) == ended;
    }
  }

  /** Giving up ends a call, and with it its hold on the lock. */
  lemma AbandoningEnds(w: World, task: nat)
    requires task < |w.tasks| && !w.tasks[task].Finished?
    ensures Next(w, Abandon(task)) == w.(tasks := w.tasks[task := Finished(Refused)])
  {
  }

  /** A start that nothing disturbs creates a session unless one is running. */
  lemma {:induction false} UndisturbedStart(w: World, key: Key)
    requires Quiet(w) && Active(w, key).None?
    ensures var after := RunSteps(w, StartSteps(w, key));
            && Quiet(after)
            && after.all == w.all + [Session(key, INITIAL, false, 0)]
            && after.registered == w.registered[key := |w.all|]
  {
    hide StartLock, RunSteps, Pruned;
    var n := |w.tasks|;
    var called := Next(w, CallStart(key));
    var handle := called.tasks[n].handle;
    var inside := Goto(called, n, StartInside(key, handle));
    var connecting := Goto(inside, n, StartConnecting(key, handle));
    var ended := Goto(Register(connecting, key), n, Finished(Created(|w.all|)));
    assert Next(called, Proceed(n)) == inside;
    assert Next(inside, Proceed(n)) == connecting;
    assert Next(connecting, Proceed(n)) == ended;
    RunOneStep(w, CallStart(key));
    RunSnoc(w, [CallStart(key)], Proceed(n));
    RunSnoc(w, [CallStart(key)] + [Proceed(n)], Proceed(n));
    RunSnoc(w, [CallStart(key)] + [Proceed(n)] + [Proceed(n)], Proceed(n));
  }

  /** A disconnect removes by rule, so it may drop a newer, live session; the
      next start of the rule then runs a second one beside it. */
  lemma StaleDisconnectBreaksIt(w: World, id: nat)
    requires Inv(w) && Quiet(w) && DropsALiveSession(w, Disconnect(id))
    ensures var key := w.all[id].key;
            var dropped := Next(w, Disconnect(id));
            var after := RunSteps(dropped, StartSteps(dropped, key));
            && |after.all| == |w.all| + 1
            && after.all[w.registered[key]].Live() && after.all[|w.all|].Live()
            && after.all[w.registered[key]].key == after.all[|w.all|].key == key
            && w.registered[key] != |w.all|
  {
    UndisturbedStart(Next(w, Disconnect(id)), w.all[id].key);
  }

  /** A session is started, asked to stop, and stops. */
  function StoppedOnce(key: Key): seq<Step> {
    StartSteps(EMPTY, key) + [AskToClose(0)] + [Work(0, MarkStopped)]
  }

  /** And its rule is started again. */
  function Restarted(key: Key): seq<Step> {
    StoppedOnce(key) + StartSteps(RunSteps(EMPTY, StoppedOnce(key)), key)
  }

  /** Such a disconnect can happen: the first handle's, finishing late. */
  lemma StaleDisconnectHappens(key: Key)
    ensures var w := RunSteps(EMPTY, Restarted(key));
            Inv(w) && Quiet(w) && DropsALiveSession(w, Disconnect(0))
  {
    hide Inv, RunSteps, StartSteps, Apply, WithOp, RequestClose;
    var stopped := StoppedOnce(key);
    FirstSessionStops(key);
    var w := RunSteps(EMPTY, stopped);
    UndisturbedStart(w, key);
    RunAppend(EMPTY, stopped, StartSteps(w, key));
    RestartIsRespectful(key);
    RunKeepsInv(Restarted(key));
  }

  lemma FirstSessionStops(key: Key)
    ensures var w := RunSteps(EMPTY, StoppedOnce(key));
            && Quiet(w) && Active(w, key).None? && |w.all| == 1
            && w.all[0].key == key && w.all[0].asked && w.all[0].state.phase.IsTerminal()
  {
    hide RunSteps, StartSteps, Apply;
    var first := StartSteps(EMPTY, key);
    UndisturbedStart(EMPTY, key);
    RunSnoc(EMPTY, first, AskToClose(0));
    RunSnoc(EMPTY, first + [AskToClose(0)], Work(0, MarkStopped));
    StopEnds(RunSteps(EMPTY, first + [AskToClose(0)]), 0);
  }

  lemma StopEnds(w: World, id: nat)
    requires id < |w.all|
    ensures WithOp(w, id, MarkStopped).all[id] ==
            w.all[id].(state := WithOp(w, id, MarkStopped).all[id].state)
    ensures WithOp(w, id, MarkStopped).all[id].state.phase.IsTerminal()
  {
  }

  lemma RestartIsRespectful(key: Key)
    ensures Respectful(Restarted(key))
  {
    hide RunSteps;
  }

  // -------------------------------------------------------------------
  // The registry object
  // -------------------------------------------------------------------

  function Repeat(step: Step, n: nat): seq<Step> {
    seq(n, _ => step)
  }

  lemma RepeatNone(w: World, step: Step)
    ensures RunSteps(w, Repeat(step, 0)) == w
  {
  }

  lemma RepeatOnce(w: World, step: Step, n: nat)
    ensures RunSteps(w, Repeat(step, n + 1)) == Next(RunSteps(w, Repeat(step, n)), step)
  {
    assert Repeat(step, n + 1) == Repeat(step, n) + [step];
    RunSnoc(w, Repeat(step, n), step);
  }

  lemma LastAsk(w: World)
    requires w.shutdown == Asking([])
    ensures Next(w, AskNext) == w.(shutdown := Asked)
  {
  }

  lemma AskedOne(w: World)
    requires w.shutdown.Asking? && w.shutdown.ids != []
    ensures Next(w, AskNext).shutdown == Asking(w.shutdown.ids[1..])
    ensures |Next(w, AskNext).all| == |w.all| && Next(w, AskNext).registered == w.registered
  {
  }

  lemma {:induction false} AsksAll(w: World, n: nat)
    requires w.shutdown.Asking? && n <= |w.shutdown.ids|
    ensures var after := RunSteps(w, Repeat(AskNext, n));
            after.shutdown == Asking(w.shutdown.ids[n..])
  {
    hide Next, RunSteps, Repeat;
    RepeatNone(w, AskNext);
    if n > 0 {
      AsksAll(w, n - 1);
      RepeatOnce(w, AskNext, n - 1);
      AskedOne(RunSteps(w, Repeat(AskNext, n - 1)));
    }
  }

  /** A shutdown can always be brought to its end: whatever sessions are registered,
      closing the door, listing them, asking each and clearing leaves none. */
  lemma {:induction false} ShutdownGetsThrough(w: World, ids: seq<nat>)
    requires w.shutdown.Open? && forall k :: k in w.registered ==> w.registered[k] in ids
    ensures var steps := [CloseDoor] + [ListSessions(ids)] + Repeat(AskNext, |ids| + 1) + [Clear];
            RunSteps(w, steps).shutdown.Cleared? && RunSteps(w, steps).registered == map[]
  {
    hide Next, RunSteps, Repeat;
    var listed := Next(Next(w, CloseDoor), ListSessions(ids));
    DoorAndList(w, ids);
    RunOneStep(w, CloseDoor);
    RunSnoc(w, [CloseDoor], ListSessions(ids));
    AsksAll(listed, |ids|);
    RepeatOnce(listed, AskNext, |ids|);
    LastAsk(RunSteps(listed, Repeat(AskNext, |ids|)));
    RunAppend(w, [CloseDoor] + [ListSessions(ids)], Repeat(AskNext, |ids| + 1));
    RunSnoc(w, [CloseDoor] + [ListSessions(ids)] + Repeat(AskNext, |ids| + 1), Clear);
    ClearsAll(RunSteps(listed, Repeat(AskNext, |ids| + 1)));
  }

  lemma DoorAndList(w: World, ids: seq<nat>)
    requires w.shutdown.Open? && forall k :: k in w.registered ==> w.registered[k] in ids
    ensures Next(Next(w, CloseDoor), ListSessions(ids)) == w.(shutdown := Asking(ids))
  {
  }

  lemma ClearsAll(w: World)
    requires w.shutdown.Asked?
    ensures Next(w, Clear).shutdown.Cleared? && Next(w, Clear).registered == map[]
  {
  }

  class ForwardSessionRegistry {
    var all: seq<Session>
    var sessions: map<Key, nat>
    var startLocks: map<Key, nat>
    var nextLock: nat
    var shutdown: Shutdown

    function View(tasks: seq<Task>): World
      reads this
    {
      World(all, sessions, startLocks, nextLock, tasks, shutdown)
    }

    constructor ()
      ensures View([]) == EMPTY
    {
      all, sessions, startLocks, nextLock, shutdown := [], map[], map[], 0, Open;
    }

    /** The lock of a rule. `tasks` decides which locks still have owners. */
    method LockOf(key: Key, tasks: seq<Task>) returns (handle: nat)
      modifies this`startLocks, this`nextLock
      ensures (startLocks, nextLock, handle) == StartLock(old(startLocks), old(nextLock), tasks, key)
    {
      startLocks := map k | k in startLocks && Owned(tasks, startLocks[k]) :: startLocks[k];
      if key in startLocks {
        return startLocks[key];
      }
      handle := nextLock;
      startLocks := startLocks[key := handle];
      nextLock := nextLock + 1;
    }

    /** The running session of a rule; ended ones are ignored. */
    method ActiveSession(key: Key) returns (id: Option<nat>)
      ensures forall tasks :: id == Active(View(tasks), key)
    {
      id := None;
      if key in sessions && sessions[key] < |all| && !all[sessions[key]].state.phase.IsTerminal() {
        id := Some(sessions[key]);
      }
    }

    /** Creates and registers a session unless the door is closed. */
    method Start(key: Key) returns (id: Option<nat>)
      modifies this`all, this`sessions
      ensures id == if shutdown.Open? then Some(|old(all)|) else None
      ensures forall tasks ::
                View(tasks) == if shutdown.Open? then Register(old(View(tasks)), key) else old(View(tasks))
    {
      if !shutdown.Open? {
        return None;
      }
      id := Some(|all|);
      sessions := sessions[key := |all|];
      all := all + [Session(key, INITIAL, false, 0)];
    }

    method RequestCloseOf(id: nat)
      requires id < |all|
      modifies this`all
      ensures all == RequestClose(old(View([])), id).all
    {
      all := all[id := all[id].(asked := true)];
      if !all[id].state.phase.IsTerminal() {
        all := all[id := all[id].(state := SetPhase(all[id].state, Stopping, None))];
      }
      all := all[id := all[id].(sent := all[id].sent + 1)];
    }

    /** The first of the listed sessions is asked. */
    method AskFirst()
      requires shutdown.Asking? && shutdown.ids != [] && shutdown.ids[0] < |all|
      modifies this`all, this`shutdown
      ensures View([]) == Next(old(View([])), AskNext)
      ensures shutdown == Asking(old(shutdown).ids[1..]) && |all| == |old(all)|
    {
      RequestCloseOf(shutdown.ids[0]);
      shutdown := Asking(shutdown.ids[1..]);
    }

    /** The listed sessions are asked one after the other. */
    method RequestCloseAll()
      requires shutdown.Asking? && forall i :: 0 <= i < |shutdown.ids| ==> shutdown.ids[i] < |all|
      modifies this`all, this`shutdown
      ensures View([]) == RunSteps(old(View([])), Repeat(AskNext, |old(shutdown).ids| + 1))
    {
      hide Next, Repeat, RunSteps;
      ghost var start := View([]);
      ghost var n := 0;
      RepeatNone(start, AskNext);
      while shutdown.ids != []
        invariant shutdown.Asking? && |shutdown.ids| + n == |start.shutdown.ids|
        invariant forall i :: 0 <= i < |shutdown.ids| ==> shutdown.ids[i] < |all|
        invariant View([]) == RunSteps(start, Repeat(AskNext, n))
        decreases |shutdown.ids|
      {
        AskFirst();
        RepeatOnce(start, AskNext, n);
        n := n + 1;
      }
      LastAsk(View([]));
      shutdown := Asked;
      RepeatOnce(start, AskNext, n);
    }

    /** Drops every registered session, marking it as ended. */
    method ClearAll()
      requires shutdown.Asked? && RegisteredInv(all, sessions)
      modifies this`all, this`sessions, this`shutdown
      ensures View([]) == Next(old(View([])), Clear)
    {
      ghost var before := all;
      var rest := sessions.Values;
      ghost var done: set<nat> := {};
      sessions := map[];
      while rest != {}
        invariant done + rest == old(sessions).Values && done !! rest
        invariant forall id :: id in rest ==> id < |before|
        invariant sessions == map[] && all == FinishAll(before, done)
        decreases rest
      {
        var id :| id in rest;
        if !all[id].state.phase.IsTerminal() {
          all := all[id := all[id].(state := Apply(all[id].state, MarkStopped))];
        }
        rest, done := rest - {id}, done + {id};
      }
      assert done == old(sessions).Values;
      shutdown := Cleared;
    }
  }
}
