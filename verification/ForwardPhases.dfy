/** The state of one port-forwarding session: its phase, failures, bound port
    and reconnect progress, under events from its worker and requests from its
    owners. Every operation here happens under the state lock. */
module ForwardPhases {
  import opened Results
  import Hand = CloseHandshake

  const REVISIONS := 0x1_0000_0000_0000_0000

  datatype Phase =
    | Starting
    | WaitingForTrust
    | WaitingForAuthentication
    | Listening
    | Connected
    | Reconnecting
    | Stopping
    | Stopped
    | Failed
  {
    predicate IsTerminal() {
      Stopped? || Failed?
    }
  }

  datatype Kind = Local | Remote

  datatype FailureKind = PortOccupied | RemoteRefused | TargetUnreachable | Authentication | Transport | Other

  datatype Hop = Hop(node: string, index: nat, total: nat)

  datatype Failure = Failure(kind: FailureKind, hop: Hop, message: string)

  datatype Request = Request(id: nat, hop: Hop)

  datatype State = State(
    phase: Phase,
    failure: Option<Failure>,
    relayFailure: Option<Failure>,
    request: Option<Request>,
    boundPort: Option<nat>,
    reconnectError: Option<string>,
    reconnectAttempt: nat,
    reconnectRetryAfter: nat,
    hop: Option<Hop>,
    revision: nat)

  const INITIAL := State(Starting, None, None, None, None, None, 0, 0, None, 1)

  /** The phases of the SSH route under a forwarding session. */
  datatype RoutePhase =
    | RouteConnecting
    | RouteWaitingForTrust
    | RouteWaitingForAuthentication
    | RouteClosing
    | RouteClosed
    | RouteOther

  /** What the worker reports. An error message arrives with its class. */
  datatype Event =
    | RouteChanged(phase: RoutePhase, hop: Option<Hop>)
    | HostKeyPrompted(request: Request)
    | AuthenticationPrompted(request: Request)
    | RequestExpired(id: nat)
    | Bound(port: nat, kind: Kind)
    | ForwardFailed(failureKind: FailureKind, message: string)
    | RouteConnected
    | Reconnect(error: string, attempt: nat, retryAfter: nat)
    | Error(class_: FailureKind, message: string)
    | Closed
    | Unrelated

  // -------------------------------------------------------------------
  // What happens under the lock
  // -------------------------------------------------------------------

  /** One atomic operation. A failure is recorded with `Fail` only. */
  datatype Op =
    | NoteHop(hop: Hop)
    | Enter(phase: Phase)
    | Fail(failure: Failure)
    | MarkStopped
    | Ask(request: Request)
    | Expire(id: nat)
    | Answer
    | Bind(port: nat, kind: Kind)
    | LoseRoute(error: string, attempt: nat, retryAfter: nat)
    | RelayFailed(failure: Failure)

  function Bumped(s: State): State {
    s.(revision := (s.revision + 1) % REVISIONS)
  }

  /** The phase does not leave a terminal one, and no other field of such a
      session changes. */
  function SetPhase(s: State, phase: Phase, failure: Option<Failure>): State {
    if s.phase.IsTerminal() then
      s
    else
      Bumped(s.(phase := phase, failure := if failure.Some? then failure else s.failure))
  }

  function PhaseWhenBound(kind: Kind): Phase {
    if kind.Local? then Listening else Connected
  }

  function Apply(s: State, op: Op): State {
    match op
    case NoteHop(hop) => s.(hop := Some(hop))
    case Enter(phase) => SetPhase(s, phase, None)
    case Fail(failure) => SetPhase(s, Failed, Some(failure))
    case MarkStopped =>
      Bumped(s.(request := None, boundPort := None, phase := if s.phase.IsTerminal() then s.phase else Stopped))
    case Ask(request) => Bumped(s.(request := Some(request)))
    case Expire(id) => Bumped(s.(request := if s.request.Some? && s.request.value.id == id then None else s.request))
    case Answer => Bumped(s.(request := None))
    case Bind(port, kind) =>
      Bumped(s.(boundPort := Some(port), reconnectError := None, reconnectAttempt := 0, reconnectRetryAfter := 0,
                phase := if s.phase.IsTerminal() then s.phase else PhaseWhenBound(kind)))
    case LoseRoute(error, attempt, retryAfter) =>
      if s.phase.IsTerminal() then
        s
      else
        Bumped(s.(phase := Reconnecting, reconnectError := Some(error), reconnectAttempt := attempt,
                  reconnectRetryAfter := retryAfter, boundPort := None))
    case RelayFailed(failure) => Bumped(s.(relayFailure := Some(failure)))
  }

  /** The phases that are entered without a failure, a stop or a lost route. */
  predicate Legal(op: Op) {
    op.Enter? ==> !op.phase.IsTerminal() && !op.phase.Reconnecting?
  }

  function Run(s: State, ops: seq<Op>): State {
    if ops == [] then s else Apply(Run(s, ops[..|ops| - 1]), ops[|ops| - 1])
  }

  predicate AllLegal(ops: seq<Op>) {
    forall i :: 0 <= i < |ops| ==> Legal(ops[i])
  }

  // -------------------------------------------------------------------
  // Invariants of every run
  // -------------------------------------------------------------------

  predicate Inv(s: State) {
    && (s.phase.Failed? <==> s.failure.Some?)
    && (s.phase.Reconnecting? ==> s.boundPort.None? && s.reconnectError.Some?)
    && (s.reconnectError.None? ==> s.reconnectAttempt == 0 && s.reconnectRetryAfter == 0)
  }

  lemma {:induction false} RunKeepsInv(ops: seq<Op>)
    requires AllLegal(ops)
    ensures Inv(Run(INITIAL, ops))
  {
    if ops != [] {
      RunKeepsInv(ops[..|ops| - 1]);
      assert Legal(ops[|ops| - 1]);
    }
  }

  lemma {:induction false} RunAppend(s: State, ops: seq<Op>, more: seq<Op>)
    ensures Run(s, ops + more) == Run(Run(s, ops), more)
  {
    if more == [] {
      assert ops + more == ops;
    } else {
      var n := |more| - 1;
      assert (ops + more)[..|ops + more| - 1] == ops + more[..n];
      RunAppend(s, ops, more[..n]);
    }
  }

  /** A session that stopped or failed stays so, with the same recorded failure,
      whatever arrives afterwards. */
  lemma {:induction false} TerminalIsAbsorbing(s: State, ops: seq<Op>)
    requires s.phase.IsTerminal()
    ensures Run(s, ops).phase == s.phase && Run(s, ops).failure == s.failure
  {
    if ops != [] {
      TerminalIsAbsorbing(s, ops[..|ops| - 1]);
    }
  }

  // -------------------------------------------------------------------
  // The bound port of a session that ended
  // -------------------------------------------------------------------

  /** A stopped session may report a bound port: one bound after the stop. */
  lemma StoppedMayReportAPort()
    ensures Run(INITIAL, [MarkStopped, Bind(8080, Local)]).phase.Stopped?
    ensures Run(INITIAL, [MarkStopped, Bind(8080, Local)]).boundPort == Some(8080)
  {
    RunTwo(INITIAL, MarkStopped, Bind(8080, Local));
  }

  /** And a failed one the port it had when it failed. */
  lemma FailedMayReportAPort(failure: Failure)
    ensures Run(INITIAL, [Bind(8080, Local), Fail(failure)]).phase.Failed?
    ensures Run(INITIAL, [Bind(8080, Local), Fail(failure)]).boundPort == Some(8080)
  {
    RunTwo(INITIAL, Bind(8080, Local), Fail(failure));
  }

  predicate NoneStops(ops: seq<Op>) {
    forall i :: 0 <= i < |ops| ==> !ops[i].MarkStopped?
  }

  predicate SomeBinds(ops: seq<Op>) {
    exists i :: 0 <= i < |ops| && ops[i].Bind?
  }

  /** Once a session has ended, its port is the one it had then, until another
      is bound; only a stop takes it away. */
  lemma {:induction false} PortAfterTheEnd(s: State, ops: seq<Op>)
    requires s.phase.IsTerminal() && NoneStops(ops)
    ensures !SomeBinds(ops) ==> Run(s, ops).boundPort == s.boundPort
    ensures SomeBinds(ops) ==> Run(s, ops).boundPort.Some?
  {
    if ops != [] {
      var n := |ops| - 1;
      var before := ops[..n];
      PortAfterTheEnd(s, before);
      TerminalIsAbsorbing(s, before);
      assert !ops[n].MarkStopped?;
      if ops[n].Bind? {
        assert SomeBinds(ops);
      } else {
        assert SomeBinds(ops) ==> SomeBinds(before) by {
          if SomeBinds(ops) {
            var i :| 0 <= i < |ops| && ops[i].Bind?;
            assert i < n && before[i].Bind?;
          }
        }
        assert SomeBinds(before) ==> SomeBinds(ops) by {
          if SomeBinds(before) {
            var i :| 0 <= i < |before| && before[i].Bind?;
            assert ops[i].Bind?;
          }
        }
      }
    }
  }

  /** The operations that end a session that had not ended. */
  predicate Ends(op: Op) {
    op.MarkStopped? || op.Fail? || (op.Enter? && op.phase.IsTerminal())
  }

  predicate SomeEnds(ops: seq<Op>) {
    exists i :: 0 <= i < |ops| && Ends(ops[i])
  }

  lemma {:induction false} EndedExactly(ops: seq<Op>)
    ensures Run(INITIAL, ops).phase.IsTerminal() <==> SomeEnds(ops)
  {
    if ops != [] {
      EndedExactly(ops[..|ops| - 1]);
    }
  }

  /** A stop takes the port away, and so does losing the route of a session that
      nothing has ended before. */
  predicate Clears(ops: seq<Op>, i: nat)
    requires i < |ops|
  {
    ops[i].MarkStopped? || (ops[i].LoseRoute? && !SomeEnds(ops[..i]))
  }

  /** The port was bound here, and nothing since has bound another or cleared it. */
  predicate LastBinding(ops: seq<Op>, i: nat, port: nat)
    requires i < |ops|
  {
    && ops[i].Bind? && ops[i].port == port
    && forall j :: i < j < |ops| ==> !ops[j].Bind? && !Clears(ops, j)
  }

  predicate LeavesPort(ops: seq<Op>, port: nat) {
    exists i :: 0 <= i < |ops| && LastBinding(ops, i, port)
  }

  lemma LastBindingSnoc(ops: seq<Op>, i: nat, port: nat)
    requires i < |ops| - 1
    ensures var n := |ops| - 1;
            LastBinding(ops, i, port) <==> LastBinding(ops[..n], i, port) && !ops[n].Bind? && !Clears(ops, n)
  {
    hide SomeEnds;
    var n := |ops| - 1;
    forall j | i < j < n
      ensures Clears(ops[..n], j) <==> Clears(ops, j)
    {
      assert ops[..n][..j] == ops[..j];
    }
    if LastBinding(ops[..n], i, port) {
      forall j | i < j < n
        ensures !ops[j].Bind? && !Clears(ops, j)
      {
        assert !ops[..n][j].Bind? && !Clears(ops[..n], j);
      }
    }
  }

  lemma LeavesPortSnoc(ops: seq<Op>, port: nat)
    requires ops != []
    ensures var n := |ops| - 1;
            LeavesPort(ops, port) <==>
              if ops[n].Bind? then ops[n].port == port else LeavesPort(ops[..n], port) && !Clears(ops, n)
  {
    hide LastBinding, Clears;
    var n := |ops| - 1;
    LastOfAll(ops, port);
    forall i | 0 <= i < n
      ensures LastBinding(ops, i, port) <==> LastBinding(ops[..n], i, port) && !ops[n].Bind? && !Clears(ops, n)
    {
      LastBindingSnoc(ops, i, port);
    }
  }

  lemma LastOfAll(ops: seq<Op>, port: nat)
    requires ops != []
    ensures LastBinding(ops, |ops| - 1, port) <==> ops[|ops| - 1].Bind? && ops[|ops| - 1].port == port
  {
  }

  /** After every run, failed, stopped or neither: a session reports a port exactly
      when that port was bound last and neither a stop nor a route lost before the
      end came later. */
  lemma {:induction false} ReportsThePortLeft(ops: seq<Op>, port: nat)
    ensures Run(INITIAL, ops).boundPort == Some(port) <==> LeavesPort(ops, port)
  {
    hide LeavesPort, SomeEnds;
    if ops == [] {
      NoneLeavesPort(port);
    } else {
      var n := |ops| - 1;
      ReportsThePortLeft(ops[..n], port);
      LeavesPortSnoc(ops, port);
      EndedExactly(ops[..n]);
    }
  }

  lemma NoneLeavesPort(port: nat)
    ensures !LeavesPort([], port)
  {
  }

  // -------------------------------------------------------------------
  // The request a session shows
  // -------------------------------------------------------------------

  /** The operations that put an end to a shown request: another one, an answer, its
      expiry, or a stop. */
  predicate Settles(op: Op, request: Request) {
    op.Ask? || op.Answer? || op.MarkStopped? || (op.Expire? && op.id == request.id)
  }

  predicate StillAsked(ops: seq<Op>, i: nat, request: Request)
    requires i < |ops|
  {
    ops[i] == Ask(request) && forall j :: i < j < |ops| ==> !Settles(ops[j], request)
  }

  predicate LeavesRequest(ops: seq<Op>, request: Request) {
    exists i :: 0 <= i < |ops| && StillAsked(ops, i, request)
  }

  lemma LeavesRequestSnoc(ops: seq<Op>, request: Request)
    requires ops != []
    ensures var n := |ops| - 1;
            LeavesRequest(ops, request) <==>
              ops[n] == Ask(request) || (LeavesRequest(ops[..n], request) && !Settles(ops[n], request))
  {
    var n := |ops| - 1;
    var before := ops[..n];
    if i :| 0 <= i < |ops| && StillAsked(ops, i, request) {
      if i < n {
        forall j | i < j < n
          ensures !Settles(before[j], request)
        {
          assert before[j] == ops[j];
        }
        assert StillAsked(before, i, request) && !Settles(ops[n], request);
      }
    }
    if i :| 0 <= i < |before| && StillAsked(before, i, request) && !Settles(ops[n], request) {
      forall j | i < j < |ops|
        ensures !Settles(ops[j], request)
      {
        assert j < n ==> before[j] == ops[j];
      }
      assert StillAsked(ops, i, request);
    }
    if ops[n] == Ask(request) {
      assert StillAsked(ops, n, request);
    }
  }

  /** After every run, a session shows a request exactly when it was asked last and
      nothing has settled it since. */
  lemma {:induction false} ShowsTheRequestLeft(ops: seq<Op>, request: Request)
    ensures Run(INITIAL, ops).request == Some(request) <==> LeavesRequest(ops, request)
  {
    hide LeavesRequest;
    if ops == [] {
      NoneLeavesRequest(request);
    } else {
      ShowsTheRequestLeft(ops[..|ops| - 1], request);
      LeavesRequestSnoc(ops, request);
    }
  }

  lemma NoneLeavesRequest(request: Request)
    ensures !LeavesRequest([], request)
  {
  }

  // -------------------------------------------------------------------
  // Readers
  // -------------------------------------------------------------------

  /** What readers see; the hop is not shown to them. */
  function Visible(s: State): State {
    s.(hop := None)
  }

  lemma ChangesAreNumbered(s: State, op: Op)
    requires s.revision < REVISIONS
    ensures Apply(s, op).revision == s.revision || Apply(s, op).revision == (s.revision + 1) % REVISIONS
    ensures Apply(s, op).revision == s.revision ==> Visible(Apply(s, op)) == Visible(s)
  {
  }

  /** How often the revision moved, which is at most once per operation. */
  lemma {:induction false} RevisionsCount(s: State, ops: seq<Op>) returns (moves: nat)
    requires s.revision < REVISIONS
    ensures moves <= |ops| && Run(s, ops).revision == (s.revision + moves) % REVISIONS
    ensures moves == 0 ==> Visible(Run(s, ops)) == Visible(s)
  {
    hide Apply;
    if ops == [] {
      moves := 0;
    } else {
      var n := |ops| - 1;
      var before := RevisionsCount(s, ops[..n]);
      ChangesAreNumbered(Run(s, ops[..n]), ops[n]);
      moves := if Run(s, ops).revision == Run(s, ops[..n]).revision then before else before + 1;
    }
  }

  /** A reader that finds the revision it knows has missed nothing, as long as
      fewer than 2^64 operations went by: also where the counter wraps around. */
  lemma SameRevisionMeansSameState(s: State, ops: seq<Op>)
    requires s.revision < REVISIONS && |ops| < REVISIONS
    requires Run(s, ops).revision == s.revision
    ensures Visible(Run(s, ops)) == Visible(s)
  {
    var _ := RevisionsCount(s, ops);
  }

  // -------------------------------------------------------------------
  // Events
  // -------------------------------------------------------------------

  function CurrentHop(s: State): Hop {
    if s.hop.Some? then s.hop.value else Hop("", 0, 0)
  }

  predicate Running(phase: Phase) {
    phase.Listening? || phase.Connected? || phase.Reconnecting?
  }

  /** The operations one event stands for, when nothing comes in between. */
  function OpsOf(s: State, kind: Kind, event: Event): (ops: seq<Op>)
    ensures AllLegal(ops)
  {
    match event
    case RouteChanged(phase, hop) =>
      (if hop.Some? then [NoteHop(hop.value)] else []) +
      (match phase
       case RouteConnecting => [Enter(Starting)]
       case RouteWaitingForTrust => [Enter(WaitingForTrust)]
       case RouteWaitingForAuthentication => [Enter(WaitingForAuthentication)]
       case RouteClosing => [Enter(Stopping)]
       case RouteClosed => [MarkStopped]
       case RouteOther => [])
    case HostKeyPrompted(request) => [Enter(WaitingForTrust), Ask(request)]
    case AuthenticationPrompted(request) => [Enter(WaitingForAuthentication), Ask(request)]
    case RequestExpired(id) => [Expire(id)]
    case Bound(port, bindingKind) => [Bind(port, bindingKind)]
    case ForwardFailed(failureKind, message) =>
      var failure := Failure(failureKind, CurrentHop(s), message);
      if Running(s.phase) then [RelayFailed(failure)] else [Fail(failure)]
    case RouteConnected => [Enter(PhaseWhenBound(kind))]
    case Reconnect(error, attempt, retryAfter) => [LoseRoute(error, attempt, retryAfter)]
    case Error(class_, message) =>
      [Fail(if s.failure.Some? then s.failure.value else Failure(class_, CurrentHop(s), message))]
    case Closed => [MarkStopped]
    case Unrelated => []
  }

  /** Whole events one after the other. */
  function RunEvents(s: State, kind: Kind, events: seq<Event>): State {
    if events == [] then
      s
    else
      var before := RunEvents(s, kind, events[..|events| - 1]);
      Run(before, OpsOf(before, kind, events[|events| - 1]))
  }

  /** Events that end a session in this state as failed: any error, and a failure
      of the forward before it was up. */
  predicate Fatal(s: State, event: Event) {
    && !s.phase.IsTerminal()
    && (event.Error? || (event.ForwardFailed? && !Running(s.phase)))
  }

  lemma RunOne(s: State, op: Op)
    ensures Run(s, [op]) == Apply(s, op)
  {
    assert [op][..0] == [];
  }

  lemma RunTwo(s: State, first: Op, second: Op)
    ensures Run(s, [first, second]) == Apply(Apply(s, first), second)
    ensures Run(s, [first] + [second]) == Apply(Apply(s, first), second)
  {
    assert [first, second][..1] == [first] && [first] + [second] == [first, second];
    RunOne(s, first);
  }

  /** One event fails a session that had not failed exactly when it is fatal. */
  lemma OneEventFails(s: State, kind: Kind, event: Event)
    ensures Run(s, OpsOf(s, kind, event)).phase.Failed? <==> s.phase.Failed? || Fatal(s, event)
  {
    var ops := OpsOf(s, kind, event);
    hide Run;
    if s.phase.IsTerminal() {
      TerminalIsAbsorbing(s, ops);
    } else if |ops| == 0 {
      RunNothing(s);
    } else if |ops| == 1 {
      RunOne(s, ops[0]);
      assert ops == [ops[0]];
    } else {
      RunTwo(s, ops[0], ops[1]);
      assert ops == [ops[0], ops[1]];
    }
  }

  lemma RunNothing(s: State)
    ensures Run(s, []) == s
  {
  }

  /** The event is fatal to the session as the earlier ones have left it. */
  predicate FatalAt(kind: Kind, events: seq<Event>, i: nat)
    requires i < |events|
  {
    Fatal(RunEvents(INITIAL, kind, events[..i]), events[i])
  }

  predicate SomeFatal(kind: Kind, events: seq<Event>) {
    exists i :: 0 <= i < |events| && FatalAt(kind, events, i)
  }

  lemma FatalInPrefix(kind: Kind, events: seq<Event>, n: nat, i: nat)
    requires i < n <= |events|
    ensures FatalAt(kind, events[..n], i) <==> FatalAt(kind, events, i)
  {
    assert events[..n][..i] == events[..i];
  }

  lemma SomeFatalSnoc(kind: Kind, events: seq<Event>)
    requires events != []
    ensures var n := |events| - 1;
            SomeFatal(kind, events) <==> SomeFatal(kind, events[..n]) || FatalAt(kind, events, n)
  {
    hide FatalAt;
    var n := |events| - 1;
    forall i | 0 <= i < n
      ensures FatalAt(kind, events[..n], i) <==> FatalAt(kind, events, i)
    {
      FatalInPrefix(kind, events, n, i);
    }
  }

  /** Over every sequence of events a session has failed exactly when one of them
      was fatal where it came; failures of a forward that was up never are. */
  lemma {:induction false} FailedExactlyByAFatalEvent(kind: Kind, events: seq<Event>)
    ensures RunEvents(INITIAL, kind, events).phase.Failed? <==> SomeFatal(kind, events)
  {
    hide SomeFatal, Fatal, OpsOf, Run;
    if events != [] {
      var n := |events| - 1;
      FailedExactlyByAFatalEvent(kind, events[..n]);
      OneEventFails(RunEvents(INITIAL, kind, events[..n]), kind, events[n]);
      SomeFatalSnoc(kind, events);
    } else {
      NoneFatal(kind);
    }
  }

  lemma NoneFatal(kind: Kind)
    ensures !SomeFatal(kind, [])
  {
  }

  // -------------------------------------------------------------------
  // The last word on every field
  // -------------------------------------------------------------------

  predicate Stops(event: Event) {
    event.Closed? || (event.RouteChanged? && event.phase.RouteClosed?)
  }

  /** The phase an event brings a session to that goes on: a local forward that is
      up listens, a remote one is connected. */
  function Enters(kind: Kind, event: Event): Option<Phase> {
    match event
    case RouteChanged(RouteConnecting, _) => Some(Starting)
    case RouteChanged(RouteWaitingForTrust, _) => Some(WaitingForTrust)
    case RouteChanged(RouteWaitingForAuthentication, _) => Some(WaitingForAuthentication)
    case RouteChanged(RouteClosing, _) => Some(Stopping)
    case HostKeyPrompted(_) => Some(WaitingForTrust)
    case AuthenticationPrompted(_) => Some(WaitingForAuthentication)
    case Bound(_, Local) => Some(Listening)
    case Bound(_, Remote) => Some(Connected)
    case RouteConnected => Some(if kind == Local then Listening else Connected)
    case Reconnect(_, _, _) => Some(Reconnecting)
    case _ => None
  }

  // What an event says about a field, if it says anything to a session in this state.

  function SaysHop(event: Event): Option<Hop> {
    if event.RouteChanged? then event.hop else None
  }

  function SaysRequest(s: State, event: Event): Option<Option<Request>> {
    if event.HostKeyPrompted? || event.AuthenticationPrompted? then Some(Some(event.request))
    else if Stops(event) then Some(None)
    else if event.RequestExpired? && s.request.Some? && s.request.value.id == event.id then Some(None)
    else None
  }

  function SaysPort(s: State, event: Event): Option<Option<nat>> {
    if event.Bound? then Some(Some(event.port))
    else if Stops(event) || (event.Reconnect? && !s.phase.IsTerminal()) then Some(None)
    else None
  }

  function SaysReconnect(s: State, event: Event): Option<(Option<string>, nat, nat)> {
    if event.Bound? then Some((None, 0, 0))
    else if event.Reconnect? && !s.phase.IsTerminal() then Some((Some(event.error), event.attempt, event.retryAfter))
    else None
  }

  /** A failure names the hop that was last heard of. */
  function SaysFailure(s: State, event: Event): Option<Failure> {
    var hop := if s.hop.Some? then s.hop.value else Hop("", 0, 0);
    match event
    case ForwardFailed(failureKind, message) => Some(Failure(failureKind, hop, message))
    case Error(class_, message) => Some(Failure(class_, hop, message))
    case _ => None
  }

  function OrElse<T>(said: Option<T>, before: T): T {
    if said.Some? then said.value else before
  }

  /** One event changes exactly the fields it speaks of. */
  predicate Heard(s: State, kind: Kind, event: Event, next: State) {
    && next.phase == (if s.phase.IsTerminal() then s.phase
                      else if Fatal(s, event) then Failed
                      else if Stops(event) then Stopped
                      else OrElse(Enters(kind, event), s.phase))
    && next.failure == (if Fatal(s, event) then SaysFailure(s, event) else s.failure)
    && next.relayFailure == (if event.ForwardFailed? && Running(s.phase) then SaysFailure(s, event) else s.relayFailure)
    && next.request == OrElse(SaysRequest(s, event), s.request)
    && next.boundPort == OrElse(SaysPort(s, event), s.boundPort)
    && (next.reconnectError, next.reconnectAttempt, next.reconnectRetryAfter)
       == OrElse(SaysReconnect(s, event), (s.reconnectError, s.reconnectAttempt, s.reconnectRetryAfter))
    && next.hop == (if SaysHop(event).Some? then SaysHop(event) else s.hop)
  }

  lemma HeardAtOnce(s: State, kind: Kind, event: Event)
    requires Inv(s) && |OpsOf(s, kind, event)| == 1
    ensures Heard(s, kind, event, Apply(s, OpsOf(s, kind, event)[0]))
  {
  }

  lemma HeardInTwo(s: State, kind: Kind, event: Event)
    requires Inv(s) && |OpsOf(s, kind, event)| == 2
    ensures Heard(s, kind, event, Apply(Apply(s, OpsOf(s, kind, event)[0]), OpsOf(s, kind, event)[1]))
  {
  }

  lemma HeardNothing(s: State, kind: Kind, event: Event)
    requires Inv(s) && |OpsOf(s, kind, event)| == 0
    ensures Heard(s, kind, event, s)
  {
  }

  lemma AtMostTwo(s: State, kind: Kind, event: Event)
    ensures |OpsOf(s, kind, event)| <= 2
  {
  }

  lemma {:induction false} EveryEventIsHeard(s: State, kind: Kind, event: Event)
    requires Inv(s)
    ensures Heard(s, kind, event, Run(s, OpsOf(s, kind, event)))
  {
    hide Run, OpsOf, Heard, Apply;
    var ops := OpsOf(s, kind, event);
    AtMostTwo(s, kind, event);
    if |ops| == 0 {
      RunNothing(s);
      HeardNothing(s, kind, event);
      assert ops == [];
    } else if |ops| == 1 {
      RunOne(s, ops[0]);
      HeardAtOnce(s, kind, event);
      assert ops == [ops[0]];
    } else {
      RunTwo(s, ops[0], ops[1]);
      HeardInTwo(s, kind, event);
      assert ops == [ops[0], ops[1]];
    }
  }

  lemma {:induction false} RunEventsKeepsInv(kind: Kind, events: seq<Event>)
    ensures Inv(RunEvents(INITIAL, kind, events))
  {
    hide Run, OpsOf;
    if events != [] {
      var before := RunEvents(INITIAL, kind, events[..|events| - 1]);
      RunEventsKeepsInv(kind, events[..|events| - 1]);
      OpsKeepInv(before, OpsOf(before, kind, events[|events| - 1]));
    }
  }

  lemma {:induction false} OpsKeepInv(s: State, ops: seq<Op>)
    requires Inv(s) && AllLegal(ops)
    ensures Inv(Run(s, ops))
  {
    if ops != [] {
      OpsKeepInv(s, ops[..|ops| - 1]);
      assert Legal(ops[|ops| - 1]);
    }
  }

  predicate SomeStops(events: seq<Event>) {
    exists i :: 0 <= i < |events| && Stops(events[i])
  }

  /** What the last event that enters a phase entered. */
  function LastEntered(kind: Kind, events: seq<Event>): Phase {
    if events == [] then Starting
    else OrElse(Enters(kind, events[|events| - 1]), LastEntered(kind, events[..|events| - 1]))
  }

  lemma SomeStopsSnoc(events: seq<Event>)
    requires events != []
    ensures SomeStops(events) <==> SomeStops(events[..|events| - 1]) || Stops(events[|events| - 1])
  {
    var before := events[..|events| - 1];
    if i :| 0 <= i < |events| && Stops(events[i]) {
      assert i < |before| ==> before[i] == events[i];
    }
    if i :| 0 <= i < |before| && Stops(before[i]) {
      assert events[i] == before[i];
    }
  }

  /** Over every sequence of events: a session has failed if some event was fatal
      where it came; otherwise it has stopped if some event stopped it; otherwise it
      is in the phase that was entered last. */
  lemma {:induction false} PhaseOfEvents(kind: Kind, events: seq<Event>)
    ensures RunEvents(INITIAL, kind, events).phase ==
            if SomeFatal(kind, events) then Failed
            else if SomeStops(events) then Stopped
            else LastEntered(kind, events)
  {
    hide Run, OpsOf, SomeFatal, SomeStops, Fatal, Enters, Stops;
    FailedExactlyByAFatalEvent(kind, events);
    if events == [] {
      NothingStops();
    } else {
      var n := |events| - 1;
      var before := RunEvents(INITIAL, kind, events[..n]);
      PhaseOfEvents(kind, events[..n]);
      RunEventsKeepsInv(kind, events[..n]);
      EveryEventIsHeard(before, kind, events[n]);
      SomeStopsSnoc(events);
      SomeFatalSnoc(kind, events);
      FailedExactlyByAFatalEvent(kind, events[..n]);
      LastEnteredGoesOn(kind, events[..n]);
    }
  }

  lemma {:induction false} LastEnteredGoesOn(kind: Kind, events: seq<Event>)
    ensures !LastEntered(kind, events).IsTerminal()
  {
    if events != [] {
      LastEnteredGoesOn(kind, events[..|events| - 1]);
    }
  }

  lemma NothingStops()
    ensures !SomeStops([])
  {
  }

  // -------------------------------------------------------------------
  // The session object
  // -------------------------------------------------------------------

  function Requested(s: Hand.Session, request: nat): Hand.Session {
    Hand.Next(Hand.Next(Hand.Next(s, Hand.Advance(request)), Hand.Advance(request)), Hand.Advance(request))
  }

  /** `attached` says that the slot holds the worker's channel, and `closeSent`
      counts the Close commands that went through it. */
  class ForwardSessionInner {
    const kind: Kind
    var state: State
    var closeRequested: bool
    var attached: bool
    var closeSent: nat

    /** The handshake, with the requests made so far. */
    ghost function Handshake(requests: seq<Hand.Requesting>): Hand.Session
      reads this
    {
      Hand.Session(closeRequested, if attached then Hand.Attached else Hand.NotAttached, requests, closeSent)
    }

    constructor (kind: Kind)
      ensures this.kind == kind && state == INITIAL && Inv(state)
      ensures Handshake([]) == Hand.FRESH
    {
      this.kind := kind;
      state := INITIAL;
      closeRequested, attached, closeSent := false, false, 0;
    }

    /** Puts the worker's channel into the slot, sending the Close that was asked
        for while it was empty. */
    method Attach(ghost requests: seq<Hand.Requesting>)
      requires !attached
      modifies this`attached, this`closeSent
      ensures Handshake(requests)
           == Hand.Next(Hand.Next(Hand.Next(old(Handshake(requests)), Hand.TakeSlot), Hand.CheckFlag), Hand.FillSlot)
    {
      if closeRequested {
        closeSent := closeSent + 1;
      }
      attached := true;
    }

    method Bump()
      modifies this`state
      ensures state == Bumped(old(state))
    {
      state := state.(revision := (state.revision + 1) % REVISIONS);
    }

    method EnterPhase(phase: Phase, failure: Option<Failure>)
      modifies this`state
      ensures state == SetPhase(old(state), phase, failure)
    {
      if state.phase.IsTerminal() {
        return;
      }
      state := state.(phase := phase);
      if failure.Some? {
        state := state.(failure := failure);
      }
      Bump();
    }

    method Stop()
      modifies this`state
      ensures state == Apply(old(state), MarkStopped)
    {
      state := state.(request := None, boundPort := None);
      if !state.phase.IsTerminal() {
        state := state.(phase := Stopped);
      }
      Bump();
    }

    method PublishRequest(request: Request)
      modifies this`state
      ensures state == Apply(old(state), Ask(request))
    {
      state := state.(request := Some(request));
      Bump();
    }

    method ExpireRequest(id: nat)
      modifies this`state
      ensures state == Apply(old(state), Expire(id))
    {
      if state.request.Some? && state.request.value.id == id {
        state := state.(request := None);
      }
      Bump();
    }

    method RecordBinding(port: nat, bindingKind: Kind)
      modifies this`state
      ensures state == Apply(old(state), Bind(port, bindingKind))
    {
      state := state.(boundPort := Some(port), reconnectError := None, reconnectAttempt := 0, reconnectRetryAfter := 0);
      if !state.phase.IsTerminal() {
        state := state.(phase := PhaseWhenBound(bindingKind));
      }
      Bump();
    }

    method RecordReconnect(error: string, attempt: nat, retryAfter: nat)
      modifies this`state
      ensures state == Apply(old(state), LoseRoute(error, attempt, retryAfter))
    {
      if state.phase.IsTerminal() {
        return;
      }
      state := state.(phase := Reconnecting, reconnectError := Some(error));
      state := state.(reconnectAttempt := attempt, reconnectRetryAfter := retryAfter, boundPort := None);
      Bump();
    }

    /** One worker event, applied without interruption. */
    method ApplyEvent(event: Event)
      requires Inv(state)
      modifies this`state
      ensures state == Run(old(state), OpsOf(old(state), kind, event))
    {
      ghost var before := state;
      match event {
        case RouteChanged(phase, hop) =>
          if hop.Some? {
            state := state.(hop := hop);
            RunOne(before, NoteHop(hop.value));
          }
          ghost var mid := state;
          match phase {
            case RouteConnecting => EnterPhase(Starting, None); RunOne(mid, Enter(Starting));
            case RouteWaitingForTrust => EnterPhase(WaitingForTrust, None); RunOne(mid, Enter(WaitingForTrust));
            case RouteWaitingForAuthentication =>
              EnterPhase(WaitingForAuthentication, None);
              RunOne(mid, Enter(WaitingForAuthentication));
            case RouteClosing => EnterPhase(Stopping, None); RunOne(mid, Enter(Stopping));
            case RouteClosed => Stop(); RunOne(mid, MarkStopped);
            case RouteOther =>
          }
          RunAppend(before, if hop.Some? then [NoteHop(hop.value)] else [], OpsOf(before, kind, event.(hop := None)));
        case HostKeyPrompted(request) =>
          EnterPhase(WaitingForTrust, None);
          PublishRequest(request);
          RunTwo(before, Enter(WaitingForTrust), Ask(request));
        case AuthenticationPrompted(request) =>
          EnterPhase(WaitingForAuthentication, None);
          PublishRequest(request);
          RunTwo(before, Enter(WaitingForAuthentication), Ask(request));
        case RequestExpired(id) =>
          ExpireRequest(id);
          RunOne(before, Expire(id));
        case Bound(port, bindingKind) =>
          RecordBinding(port, bindingKind);
          RunOne(before, Bind(port, bindingKind));
        case ForwardFailed(failureKind, message) =>
          var failure := Failure(failureKind, CurrentHop(state), message);
          if Running(state.phase) {
            state := state.(relayFailure := Some(failure));
            Bump();
            RunOne(before, RelayFailed(failure));
          } else {
            EnterPhase(Failed, Some(failure));
            RunOne(before, Fail(failure));
          }
        case RouteConnected =>
          EnterPhase(PhaseWhenBound(kind), None);
          RunOne(before, Enter(PhaseWhenBound(kind)));
        case Reconnect(error, attempt, retryAfter) =>
          RecordReconnect(error, attempt, retryAfter);
          RunOne(before, LoseRoute(error, attempt, retryAfter));
        case Error(class_, message) =>
          var failure := Failure(class_, CurrentHop(state), message);
          if state.failure.Some? {
            failure := state.failure.value;
          }
          EnterPhase(Failed, Some(failure));
          RunOne(before, Fail(failure));
        case Closed =>
          Stop();
          RunOne(before, MarkStopped);
        case Unrelated =>
      }
    }

    /** One uninterrupted request: the handshake goes through all its steps. */
    method RequestClose(ghost requests: seq<Hand.Requesting>)
      modifies this
      ensures state == Apply(old(state), Enter(Stopping))
      ensures attached == old(attached)
      ensures Handshake(requests + [Hand.Returned(attached)])
           == Requested(Hand.Next(old(Handshake(requests)), Hand.Call), |requests|)
    {
      closeRequested := true;
      if !state.phase.IsTerminal() {
        EnterPhase(Stopping, None);
      }
      if attached {
        closeSent := closeSent + 1;
      }
    }

    /** The event task ends. */
    method FinishTask()
      modifies this`state
      ensures state.phase.IsTerminal()
      ensures state == if old(state).phase.IsTerminal() then old(state) else Apply(old(state), MarkStopped)
    {
      if !state.phase.IsTerminal() {
        Stop();
      }
    }
  }
}
