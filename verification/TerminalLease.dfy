/** The terminal lease of one Agent request: which typed command, if any, may
    still be running in the user's shell, and when the terminal may be handed on.

    Terminal output is modelled one `char` per byte. */
module TerminalLease {
  import opened Results
  import opened Search

  const MAX_U64: nat := 0xFFFF_FFFF_FFFF_FFFF

  datatype Phase = Reserved | Released | Running | InterruptRequested | Completed | Unknown {
    predicate IsSettled() { Released? || Completed? }

    /** A command was sent and its sentinel is still awaited. */
    predicate IsPending() { Running? || InterruptRequested? || Unknown? }
  }

  datatype Sentinel = Sentinel(epoch: nat, bytes: string)

  datatype Lease = Lease(
    phase: Phase,
    retired: bool,
    interruptAttempted: bool,
    epoch: nat,
    sentinel: Option<Sentinel>,
    used: set<string>,
    tail: string,
    owners: nat)

  datatype StartError =
    | LeaseRetired
    | CommandActive
    | PreviousMayRun
    | EpochExhausted
    | EmptySentinel
    | SentinelReused
    | SendFailed

  datatype CancelResult = Cancelled(interrupted: bool) | InterruptFailed

  const INITIAL := Lease(Reserved, false, false, 0, None, {}, "", 0)

  predicate IsDigit(c: char) { '0' <= c <= '9' }

  /** `sentinel` occurs at `at` and the next character is a digit. */
  predicate AnsweredAt(text: string, sentinel: string, at: int) {
    OccursAt(sentinel, text, at) && at + |sentinel| < |text| && IsDigit(text[at + |sentinel|])
  }

  predicate Seen(text: string, sentinel: string) {
    exists at :: 0 <= at < |text| && AnsweredAt(text, sentinel, at)
  }

  function LastChars(text: string, count: nat): string {
    if |text| <= count then text else text[|text| - count..]
  }

  // ---------------------------------------------------------------------
  // The operations, as functions of the state the mutex protects
  // ---------------------------------------------------------------------

  predicate CanRelease(l: Lease) {
    l.phase.IsSettled() && (l.retired || l.owners == 0)
  }

  function RegisterOwner(l: Lease): Lease {
    l.(owners := (l.owners + 1) % (MAX_U64 + 1))
  }

  function UnregisterOwner(l: Lease): Lease {
    var rest := if l.owners == 0 then MAX_U64 else l.owners - 1;
    l.(owners := rest, phase := if l.owners == 1 && l.phase.Reserved? then Released else l.phase)
  }

  /** Why a command may not start; `None` when it may be sent. */
  function StartRefusal(l: Lease, sentinel: string): Option<StartError> {
    if l.retired then Some(LeaseRetired)
    else if l.phase.Running? || l.phase.InterruptRequested? then Some(CommandActive)
    else if l.phase.Unknown? then Some(PreviousMayRun)
    else if l.epoch >= MAX_U64 then Some(EpochExhausted)
    else if sentinel == "" then Some(EmptySentinel)
    else if sentinel in l.used then Some(SentinelReused)
    else None
  }

  predicate Starts(l: Lease, sentinel: string, sendOk: bool) {
    StartRefusal(l, sentinel).None? && sendOk
  }

  function StartCommand(l: Lease, sentinel: string, sendOk: bool): Lease {
    if Starts(l, sentinel, sendOk) then
      l.(epoch := l.epoch + 1,
         phase := Running,
         interruptAttempted := false,
         used := l.used + {sentinel},
         sentinel := Some(Sentinel(l.epoch + 1, sentinel)),
         tail := "")
    else l
  }

  function StartResult(l: Lease, sentinel: string, sendOk: bool): Result<nat, StartError> {
    match StartRefusal(l, sentinel)
    case Some(error) => Err(error)
    case None => if sendOk then Ok(l.epoch + 1) else Err(SendFailed)
  }

  function Retire(l: Lease): Lease {
    l.(retired := true, phase := if l.phase.Reserved? then Released else l.phase)
  }

  predicate Matches(l: Lease, expected: Option<nat>) {
    expected.None? || expected.value == l.epoch
  }

  /** Whether a cancel types Ctrl-C into the terminal. */
  predicate Interrupts(l: Lease, expected: Option<nat>) {
    Matches(l, expected) && (l.phase.Running? || l.phase.Unknown?)
    && l.sentinel.Some? && !l.interruptAttempted
  }

  function Cancel(l: Lease, expected: Option<nat>, sendOk: bool): Lease {
    if !Matches(l, expected) then l
    else if l.phase.Reserved? then l.(retired := true, phase := Released)
    else if Interrupts(l, expected) then
      l.(retired := true,
         interruptAttempted := true,
         phase := if !sendOk || l.phase.Unknown? then Unknown else InterruptRequested)
    else l.(retired := true)
  }

  function CancelOutcome(l: Lease, expected: Option<nat>, sendOk: bool): CancelResult {
    if Interrupts(l, expected) then (if sendOk then Cancelled(true) else InterruptFailed) else Cancelled(false)
  }

  function Complete(l: Lease, epoch: nat): Lease {
    if l.epoch != epoch || l.phase.Completed? then l
    else l.(phase := Completed, sentinel := None, tail := "")
  }

  function MarkUnknown(l: Lease, expected: Option<nat>): Lease {
    if Matches(l, expected) && (l.phase.Running? || l.phase.InterruptRequested?) then l.(phase := Unknown) else l
  }

  /** The epoch whose detector looked at the output, if one was armed. */
  function ObservedEpoch(l: Lease): Option<nat> {
    if l.phase.IsPending() && l.sentinel.Some? && l.sentinel.value.epoch == l.epoch && l.sentinel.value.bytes != "" then
      Some(l.epoch)
    else None
  }

  function Observe(l: Lease, bytes: string): Lease {
    if ObservedEpoch(l).None? then l
    else if Seen(l.tail + bytes, l.sentinel.value.bytes) then
      l.(phase := Completed, sentinel := None, tail := "")
    else l.(tail := LastChars(l.tail + bytes, |l.sentinel.value.bytes|))
  }

  // ---------------------------------------------------------------------
  // Runs, and the log that judges them
  // ---------------------------------------------------------------------

  datatype Action =
    | ARegister
    | AUnregister
    | AStart(sentinel: string, sendOk: bool)
    | ARetire
    | ACancel(expected: Option<nat>, sendOk: bool)
    | AComplete(epoch: nat)
    | AMarkUnknown(expected: Option<nat>)
    | AObserve(bytes: string)

  function Next(l: Lease, a: Action): Lease {
    match a
    case ARegister => RegisterOwner(l)
    case AUnregister => UnregisterOwner(l)
    case AStart(sentinel, sendOk) => StartCommand(l, sentinel, sendOk)
    case ARetire => Retire(l)
    case ACancel(expected, sendOk) => Cancel(l, expected, sendOk)
    case AComplete(epoch) => Complete(l, epoch)
    case AMarkUnknown(expected) => MarkUnknown(l, expected)
    case AObserve(bytes) => Observe(l, bytes)
  }

  /** What happened at the lease's boundary: the sentinels of the commands that
      were sent (command `e` is entry `e - 1`), everything the terminal printed
      between each command and the next, the epochs a receive loop confirmed, the
      epochs a Ctrl-C was typed for, and those somebody lost track of, by marking
      them or by failing to type the Ctrl-C; how many owners came and did not
      leave, whether the last one left, and whether anybody retired the lease.
      Nothing here is ever forgotten. */
  datatype Log = Log(
    commands: seq<string>,
    streamed: seq<string>,
    confirmed: set<nat>,
    interrupts: seq<nat>,
    doubted: set<nat>,
    owners: int,
    abandoned: bool,
    retired: bool)
  {
    /** Without the calls that neither print, send nor confirm. */
    function Core(): Log {
      Log(commands, streamed, confirmed, [], {}, 0, false, false)
    }

    predicate Concerns(expected: Option<nat>) {
      expected.None? || expected.value == |commands|
    }
  }

  const EMPTY_LOG := Log([], [], {}, [], {}, 0, false, false)

  function Record(log: Log, l: Lease, a: Action): Log {
    match a
    case ARegister => log.(owners := log.owners + 1)
    case AUnregister =>
      log.(owners := log.owners - 1, abandoned := log.abandoned || log.owners % (MAX_U64 + 1) == 1)
    case AStart(sentinel, sendOk) =>
      if Starts(l, sentinel, sendOk) then
        log.(commands := log.commands + [sentinel], streamed := log.streamed + [""])
      else log
    case AObserve(bytes) =>
      if log.streamed == [] then log
      else
        var last := |log.streamed| - 1;
        log.(streamed := log.streamed[last := log.streamed[last] + bytes])
    case AComplete(epoch) => if log.Concerns(Some(epoch)) then log.(confirmed := log.confirmed + {epoch}) else log
    case ARetire => log.(retired := true)
    case ACancel(expected, sendOk) =>
      var typed := Interrupts(l, expected);
      log.(retired := log.retired || log.Concerns(expected),
           interrupts := if typed then log.interrupts + [l.epoch] else log.interrupts,
           doubted := if typed && !sendOk then log.doubted + {l.epoch} else log.doubted)
    case AMarkUnknown(expected) =>
      if log.Concerns(expected) then log.(doubted := log.doubted + {|log.commands|}) else log
  }

  datatype Traced = Traced(lease: Lease, log: Log)

  function Step(t: Traced, a: Action): Traced {
    Traced(Next(t.lease, a), Record(t.log, t.lease, a))
  }

  function Run(t: Traced, actions: seq<Action>): Traced
    decreases |actions|
  {
    if actions == [] then t else Run(Step(t, actions[0]), actions[1..])
  }

  const START := Traced(INITIAL, EMPTY_LOG)

  /** Command `epoch` is over: the terminal printed its sentinel and a digit
      after it was sent, or its receive loop confirmed it. */
  predicate Over(log: Log, epoch: nat) {
    epoch in log.confirmed
    || (1 <= epoch <= |log.commands| && epoch <= |log.streamed|
        && Seen(log.streamed[epoch - 1], log.commands[epoch - 1]))
  }

  ghost predicate AllOver(log: Log) {
    forall epoch :: 1 <= epoch <= |log.commands| ==> Over(log, epoch)
  }

  /** The phase, told from the history alone. */
  ghost function PhaseOf(log: Log): Phase {
    var epoch := |log.commands|;
    if Over(log, epoch) then Completed
    else if epoch == 0 then (if log.retired || log.abandoned then Released else Reserved)
    else if epoch in log.doubted then Unknown
    else if epoch in log.interrupts then InterruptRequested
    else Running
  }

  ghost predicate Distinct<T>(s: seq<T>) {
    forall i, j :: 0 <= i < j < |s| ==> s[i] != s[j]
  }

  /** Sent commands are numbered by epoch and their sentinels never repeat. */
  ghost predicate CommandsInv(epoch: nat, used: set<string>, commands: seq<string>) {
    && epoch == |commands| <= MAX_U64
    && used == (set s | s in commands)
    && Distinct(commands)
    && "" !in commands
  }

  /** The attempt flag remembers exactly the current command's interrupt. */
  ghost predicate InterruptsInv(epoch: nat, attempted: bool, interrupts: seq<nat>) {
    && (attempted <==> epoch in interrupts)
    && (forall k :: 0 <= k < |interrupts| ==> 1 <= interrupts[k] <= epoch)
    && Distinct(interrupts)
  }

  /** The state agrees with the log it has long forgotten. */
  ghost predicate Inv(l: Lease, log: Log) {
    && CommandsInv(l.epoch, l.used, log.commands)
    && InterruptsInv(l.epoch, l.interruptAttempted, log.interrupts)
    && l.retired == log.retired
    && l.owners == log.owners % (MAX_U64 + 1)
    && l.phase == PhaseOf(log)
    && (forall epoch :: epoch in log.doubted ==> epoch <= l.epoch)
    && |log.streamed| == l.epoch
    && (forall epoch :: 1 <= epoch < l.epoch ==> Over(log, epoch))
    && (forall epoch :: epoch in log.confirmed ==> epoch <= l.epoch)
    && (l.phase.Reserved? || l.phase.Released? ==> l.epoch == 0)
    && (l.phase.Completed? <==> Over(log, l.epoch))
    && (l.phase.IsPending() <==> l.sentinel.Some?)
    && (l.sentinel.Some? ==> Armed(l, log))
    && (l.sentinel.None? ==> l.tail == "")
  }

  /** The armed detector keeps exactly the last characters that can still matter. */
  ghost predicate Armed(l: Lease, log: Log)
    requires l.sentinel.Some?
  {
    && 1 <= l.epoch == |log.commands| == |log.streamed|
    && l.sentinel.value == Sentinel(l.epoch, log.commands[l.epoch - 1])
    && log.commands[l.epoch - 1] != ""
    && !Seen(log.streamed[l.epoch - 1], log.commands[l.epoch - 1])
    && l.tail == LastChars(log.streamed[l.epoch - 1], |log.commands[l.epoch - 1]|)
  }

  // ---------------------------------------------------------------------
  // Streaming detection
  // ---------------------------------------------------------------------

  lemma DropThenAppend(text: string, first: nat, more: string)
    requires first <= |text|
    ensures text[first..] + more == (text + more)[first..]
  {
  }

  lemma LastCharsAre(text: string, count: nat)
    ensures var kept := LastChars(text, count);
            && |kept| == (if |text| <= count then |text| else count)
            && kept == text[|text| - |kept|..]
  {
  }

  lemma AreLastChars(text: string, count: nat, kept: string)
    requires |kept| == (if |text| <= count then |text| else count)
    requires kept == text[|text| - |kept|..]
    ensures LastChars(text, count) == kept
  {
  }

  lemma SeenInSuffix(whole: string, cut: nat, sentinel: string)
    requires cut <= |whole|
    ensures Seen(whole[cut..], sentinel) ==> Seen(whole, sentinel)
    ensures Seen(whole, sentinel) ==>
              || Seen(whole[cut..], sentinel)
              || exists at :: 0 <= at < cut && AnsweredAt(whole, sentinel, at)
  {
    hide AnsweredAt;
    var part := whole[cut..];
    assert part == whole[cut..|whole|];
    if Seen(part, sentinel) {
      var at :| 0 <= at < |part| && AnsweredAt(part, sentinel, at);
      AnswerFits(part, sentinel, at);
      AnsweredInWindow(whole, cut, |whole|, sentinel, at);
      assert AnsweredAt(whole, sentinel, at + cut);
    }
    if Seen(whole, sentinel) {
      var at :| 0 <= at < |whole| && AnsweredAt(whole, sentinel, at);
      if cut <= at {
        AnswerFits(whole, sentinel, at);
        AnsweredInWindow(whole, cut, |whole|, sentinel, at - cut);
        assert AnsweredAt(part, sentinel, at - cut);
      }
    }
  }

  lemma SeenInTail(stream: string, chunk: string, sentinel: string)
    requires !Seen(stream, sentinel)
    ensures Seen(LastChars(stream, |sentinel|) + chunk, sentinel) <==> Seen(stream + chunk, sentinel)
  {
    hide AnsweredAt, LastChars;
    var whole := stream + chunk;
    var kept := LastChars(stream, |sentinel|);
    var cut := |stream| - |kept|;
    LastCharsAre(stream, |sentinel|);
    DropThenAppend(stream, cut, chunk);
    SeenInSuffix(whole, cut, sentinel);
    forall at | 0 <= at < cut
      ensures !AnsweredAt(whole, sentinel, at)
    {
      assert whole[0..|stream|] == stream;
      AnsweredInWindow(whole, 0, |stream|, sentinel, at);
    }
  }

  lemma AnswerFits(text: string, sentinel: string, at: int)
    requires AnsweredAt(text, sentinel, at)
    ensures 0 <= at && at + |sentinel| < |text|
  {
  }

  /** The bounded tail is enough: if the sentinel was not answered before, then
      looking at the kept tail and the new chunk finds it exactly when looking
      at the whole stream would, and the next tail is again the stream's end. */
  lemma TailSuffices(stream: string, chunk: string, sentinel: string)
    requires !Seen(stream, sentinel)
    ensures Seen(LastChars(stream, |sentinel|) + chunk, sentinel) <==> Seen(stream + chunk, sentinel)
    ensures LastChars(LastChars(stream, |sentinel|) + chunk, |sentinel|) == LastChars(stream + chunk, |sentinel|)
  {
    SeenInTail(stream, chunk, sentinel);
  }

  lemma AnsweredInWindow(text: string, lo: nat, hi: nat, sentinel: string, at: int)
    requires lo <= hi <= |text| && 0 <= at && at + lo + |sentinel| < hi
    ensures AnsweredAt(text[lo..hi], sentinel, at) <==> AnsweredAt(text, sentinel, at + lo)
  {
    OccursInWindow(sentinel, text, lo, hi, at);
  }

  lemma SeenGrows(text: string, more: string, sentinel: string)
    requires Seen(text, sentinel)
    ensures Seen(text + more, sentinel)
  {
    var at :| 0 <= at < |text| && AnsweredAt(text, sentinel, at);
    assert (text + more)[0..|text|] == text;
    AnsweredInWindow(text + more, 0, |text|, sentinel, at);
  }

  // ---------------------------------------------------------------------
  // Every step keeps the invariant
  // ---------------------------------------------------------------------

  lemma StartKeepsInv(l: Lease, log: Log, sentinel: string, sendOk: bool)
    requires Inv(l, log)
    ensures Inv(Next(l, AStart(sentinel, sendOk)), Record(log, l, AStart(sentinel, sendOk)))
  {
    hide Seen;
    if Starts(l, sentinel, sendOk) {
      var log' := Record(log, l, AStart(sentinel, sendOk));
      forall epoch: nat | epoch <= l.epoch ensures Over(log', epoch) <==> Over(log, epoch) {
        if 1 <= epoch {
          assert log'.streamed[epoch - 1] == log.streamed[epoch - 1];
        }
      }
      NothingSeenInNothing(sentinel);
    }
  }

  lemma NothingSeenInNothing(sentinel: string)
    ensures !Seen("", sentinel)
  {
  }

  lemma ObserveRecordsOnlyTheLast(l: Lease, log: Log, bytes: string)
    requires |log.streamed| == |log.commands| == l.epoch
    ensures var log' := Record(log, l, AObserve(bytes));
            && log'.(streamed := []) == log.(streamed := [])
            && |log'.streamed| == |log.streamed|
            && (forall epoch :: epoch != l.epoch ==> (Over(log', epoch) <==> Over(log, epoch)))
            && (Over(log, l.epoch) ==> Over(log', l.epoch))
            && (l.epoch > 0 ==> log'.streamed[l.epoch - 1] == log.streamed[l.epoch - 1] + bytes)
  {
    if l.epoch > 0 && Seen(log.streamed[l.epoch - 1], log.commands[l.epoch - 1]) {
      SeenGrows(log.streamed[l.epoch - 1], bytes, log.commands[l.epoch - 1]);
    }
  }

  lemma ObserveKeepsInv(l: Lease, log: Log, bytes: string)
    requires Inv(l, log)
    ensures Inv(Next(l, AObserve(bytes)), Record(log, l, AObserve(bytes)))
  {
    hide Seen, Record, LastChars;
    ObserveRecordsOnlyTheLast(l, log, bytes);
    if l.sentinel.Some? {
      TailSuffices(log.streamed[l.epoch - 1], bytes, log.commands[l.epoch - 1]);
    }
  }

  lemma CompleteKeepsInv(l: Lease, log: Log, epoch: nat)
    requires Inv(l, log)
    ensures Inv(Next(l, AComplete(epoch)), Record(log, l, AComplete(epoch)))
  {
    hide Seen;
    var log' := Record(log, l, AComplete(epoch));
    assert forall e :: Over(log, e) ==> Over(log', e);
  }

  lemma AnotherInterrupt(epoch: nat, interrupts: seq<nat>)
    requires InterruptsInv(epoch, false, interrupts) && 1 <= epoch
    ensures InterruptsInv(epoch, true, interrupts + [epoch])
  {
    var more := interrupts + [epoch];
    assert more[|interrupts|] == epoch;
  }

  /** A detector stays armed while nothing is printed, sent or confirmed. */
  lemma ArmedIsCore(l: Lease, log: Log, l': Lease, log': Log)
    requires log'.Core() == log.Core()
    requires l'.epoch == l.epoch && l'.sentinel == l.sentinel && l'.tail == l.tail
    ensures l.sentinel.Some? && Armed(l, log) ==> Armed(l', log')
  {
  }

  lemma CancelKeepsInv(l: Lease, log: Log, expected: Option<nat>, sendOk: bool)
    requires Inv(l, log)
    ensures Inv(Next(l, ACancel(expected, sendOk)), Record(log, l, ACancel(expected, sendOk)))
  {
    hide Seen, Over, InterruptsInv, Armed;
    var l', log' := Next(l, ACancel(expected, sendOk)), Record(log, l, ACancel(expected, sendOk));
    SameOver(log, log');
    ArmedIsCore(l, log, l', log');
    if Interrupts(l, expected) {
      AnotherInterrupt(l.epoch, log.interrupts);
    }
  }

  lemma MarkKeepsInv(l: Lease, log: Log, expected: Option<nat>)
    requires Inv(l, log)
    ensures Inv(Next(l, AMarkUnknown(expected)), Record(log, l, AMarkUnknown(expected)))
  {
    hide Seen, Over, Armed;
    var log' := Record(log, l, AMarkUnknown(expected));
    SameOver(log, log');
    ArmedIsCore(l, log, Next(l, AMarkUnknown(expected)), log');
  }

  lemma SameOver(log: Log, log': Log)
    requires log'.Core() == log.Core()
    ensures forall epoch :: Over(log', epoch) <==> Over(log, epoch)
  {
    forall epoch
      ensures Over(log', epoch) <==> Over(log, epoch)
    {
    }
  }

  lemma OwnersKeepInv(l: Lease, log: Log, a: Action)
    requires Inv(l, log) && (a.ARegister? || a.AUnregister? || a.ARetire?)
    ensures Inv(Next(l, a), Record(log, l, a))
  {
    hide Seen, Over, CommandsInv, InterruptsInv, Armed;
    SameOver(log, Record(log, l, a));
    ArmedIsCore(l, log, Next(l, a), Record(log, l, a));
  }

  lemma StepKeepsInv(t: Traced, a: Action)
    requires Inv(t.lease, t.log)
    ensures Inv(Step(t, a).lease, Step(t, a).log)
  {
    hide Seen;
    match a
    case AStart(sentinel, sendOk) => StartKeepsInv(t.lease, t.log, sentinel, sendOk);
    case AObserve(bytes) => ObserveKeepsInv(t.lease, t.log, bytes);
    case AComplete(epoch) => CompleteKeepsInv(t.lease, t.log, epoch);
    case ACancel(expected, sendOk) => CancelKeepsInv(t.lease, t.log, expected, sendOk);
    case AMarkUnknown(expected) => MarkKeepsInv(t.lease, t.log, expected);
    case _ => OwnersKeepInv(t.lease, t.log, a);
  }

  lemma {:induction false} RunKeepsInv(t: Traced, actions: seq<Action>)
    requires Inv(t.lease, t.log)
    ensures Inv(Run(t, actions).lease, Run(t, actions).log)
    decreases |actions|
  {
    if actions != [] {
      StepKeepsInv(t, actions[0]);
      RunKeepsInv(Step(t, actions[0]), actions[1..]);
    }
  }

  lemma StartSatisfiesInv()
    ensures Inv(INITIAL, EMPTY_LOG)
  {
    assert !Over(EMPTY_LOG, 0);
  }

  // ---------------------------------------------------------------------
  // What every run guarantees
  // ---------------------------------------------------------------------

  /** At most one sent command is ever outstanding. A new command can be sent,
      and the terminal can be handed on, only when every command sent before has
      had its own sentinel answered (or was confirmed by its receive loop); and
      no two commands share a sentinel, so one answer cannot settle two. */
  lemma OneCommandAtATime(actions: seq<Action>)
    ensures var t := Run(START, actions);
            && Distinct(t.log.commands)
            && (forall epoch :: 1 <= epoch < |t.log.commands| ==> Over(t.log, epoch))
            && (forall sentinel :: StartRefusal(t.lease, sentinel).None? ==> AllOver(t.log))
            && (CanRelease(t.lease) ==> AllOver(t.log))
  {
    StartSatisfiesInv();
    RunKeepsInv(START, actions);
  }

  /** The detector is exact: the lease is `Completed` just when the whole output
      printed since the last command was sent contains its sentinel followed by
      a digit, or its receive loop confirmed it. */
  lemma DetectionIsExact(actions: seq<Action>)
    ensures var t := Run(START, actions);
            t.lease.phase.Completed? <==> Over(t.log, |t.log.commands|)
  {
    StartSatisfiesInv();
    RunKeepsInv(START, actions);
  }

  /** What a command sent now would be answered, told from the history alone. */
  ghost function StartAnswer(log: Log, sentinel: string, sendOk: bool): Result<nat, StartError> {
    if log.retired then Err(LeaseRetired)
    else if !AllOver(log) then Err(if |log.commands| in log.doubted then PreviousMayRun else CommandActive)
    else if |log.commands| >= MAX_U64 then Err(EpochExhausted)
    else if sentinel == "" then Err(EmptySentinel)
    else if sentinel in log.commands then Err(SentinelReused)
    else if !sendOk then Err(SendFailed)
    else Ok(|log.commands| + 1)
  }

  /** And a cancel: the newest command is interrupted once, until it is over. */
  ghost function CancelAnswer(log: Log, expected: Option<nat>, sendOk: bool): CancelResult {
    var newest := |log.commands|;
    if log.Concerns(expected) && 1 <= newest && !Over(log, newest) && newest !in log.interrupts then
      (if sendOk then Cancelled(true) else InterruptFailed)
    else Cancelled(false)
  }

  /** A terminal that may be handed on: nothing runs, and either somebody retired
      the lease or nobody owns it any more. */
  ghost predicate HandOn(log: Log) {
    && AllOver(log)
    && (log.retired || log.owners % (MAX_U64 + 1) == 0)
    && (log.commands == [] && 0 !in log.confirmed ==> log.retired || log.abandoned)
  }

  lemma EpochIsCount(l: Lease, log: Log)
    requires Inv(l, log)
    ensures l.epoch == |log.commands| == |log.streamed|
  {
    hide Seen, Over, Armed;
  }

  lemma NewestDecides(l: Lease, log: Log)
    requires Inv(l, log)
    ensures AllOver(log) <==> |log.commands| == 0 || Over(log, |log.commands|)
    ensures Over(log, 0) <==> 0 in log.confirmed
    ensures l.used == set s | s in log.commands
  {
    hide Seen;
  }

  /** Every answer of the lease is what its history demands: a command starts
      exactly when the lease was not retired, every earlier one is over, its
      sentinel is new and it can be sent; otherwise it is refused for the first of
      these reasons. */
  lemma {:induction false} AnswersAreHistory(l: Lease, log: Log, sentinel: string, expected: Option<nat>, sendOk: bool)
    requires Inv(l, log)
    ensures l.phase == PhaseOf(log)
    ensures StartResult(l, sentinel, sendOk) == StartAnswer(log, sentinel, sendOk)
    ensures CancelOutcome(l, expected, sendOk) == CancelAnswer(log, expected, sendOk)
    ensures CanRelease(l) <==> HandOn(log)
  {
    hide Seen, Over, AllOver;
    NewestDecides(l, log);
  }

  /** A command is sent exactly when it is accepted, and a Ctrl-C exactly when it
      is attempted. */
  lemma {:induction false} SendsExactly(l: Lease, log: Log, sentinel: string, expected: Option<nat>, sendOk: bool)
    requires Inv(l, log)
    ensures Record(log, l, AStart(sentinel, sendOk)).commands
         == if StartAnswer(log, sentinel, sendOk).Ok? then log.commands + [sentinel] else log.commands
    ensures Record(log, l, ACancel(expected, sendOk)).interrupts
         == if CancelAnswer(log, expected, sendOk) == Cancelled(false) then log.interrupts
            else log.interrupts + [|log.commands|]
  {
    hide Seen, Over, AllOver;
    NewestDecides(l, log);
  }

  /** In every run. */
  lemma {:induction false} RunsAnswerByHistory(actions: seq<Action>, sentinel: string, expected: Option<nat>,
                                               sendOk: bool)
    ensures var t := Run(START, actions);
            && t.lease.phase == PhaseOf(t.log)
            && StartResult(t.lease, sentinel, sendOk) == StartAnswer(t.log, sentinel, sendOk)
            && CancelOutcome(t.lease, expected, sendOk) == CancelAnswer(t.log, expected, sendOk)
            && (CanRelease(t.lease) <==> HandOn(t.log))
  {
    StartSatisfiesInv();
    RunKeepsInv(START, actions);
    AnswersAreHistory(Run(START, actions).lease, Run(START, actions).log, sentinel, expected, sendOk);
  }

  /** `Unknown` is left only towards `Completed`, and only when the command is
      really over. */
  lemma UnknownEndsWithTheCommand(actions: seq<Action>, a: Action)
    ensures var t := Run(START, actions);
            var t' := Step(t, a);
            t.lease.phase.Unknown? && !t'.lease.phase.Unknown? ==>
              t'.lease.phase.Completed? && |t'.log.commands| == |t.log.commands| && AllOver(t'.log)
  {
    StartSatisfiesInv();
    RunKeepsInv(START, actions);
    StepKeepsInv(Run(START, actions), a);
  }

  /** Ctrl-C is typed at most once per command, never for a command that is
      over, and only by a step that retires the lease. */
  lemma InterruptsAreSafe(actions: seq<Action>, a: Action)
    ensures var t := Run(START, actions);
            var t' := Step(t, a);
            && Distinct(t'.log.interrupts)
            && (t'.log.interrupts != t.log.interrupts ==>
                  && t'.log.interrupts == t.log.interrupts + [|t.log.commands|]
                  && 1 <= |t.log.commands|
                  && |t.log.commands| !in t.log.interrupts
                  && !Over(t.log, |t.log.commands|)
                  && t'.lease.retired)
  {
    StartSatisfiesInv();
    RunKeepsInv(START, actions);
    StepKeepsInv(Run(START, actions), a);
  }

  /** A retired lease never sends again. */
  lemma {:induction false} RetiredNeverSends(t: Traced, actions: seq<Action>)
    requires t.lease.retired
    ensures Run(t, actions).lease.retired && Run(t, actions).log.commands == t.log.commands
    decreases |actions|
  {
    if actions != [] {
      RetiredNeverSends(Step(t, actions[0]), actions[1..]);
    }
  }

  /** A cancel that is not stale is final, whatever comes after it. */
  lemma CancelIsFinal(t: Traced, expected: Option<nat>, sendOk: bool, later: seq<Action>)
    requires Inv(t.lease, t.log) && (expected.None? || expected.value == |t.log.commands|)
    ensures Run(Step(t, ACancel(expected, sendOk)), later).log.commands == t.log.commands
  {
    RetiredNeverSends(Step(t, ACancel(expected, sendOk)), later);
  }

  /** Once retired and settled, the lease stays releasable for good. */
  lemma {:induction false} RetiredAndSettledStays(t: Traced, actions: seq<Action>)
    requires t.lease.retired && t.lease.phase.IsSettled()
    ensures CanRelease(Run(t, actions).lease)
    decreases |actions|
  {
    if actions != [] {
      RetiredAndSettledStays(Step(t, actions[0]), actions[1..]);
    }
  }

  /** Calls made on behalf of an earlier command. */
  predicate Stale(log: Log, a: Action) {
    match a
    case AComplete(epoch) => epoch != |log.commands|
    case AMarkUnknown(expected) => expected.Some? && expected.value != |log.commands|
    case ACancel(expected, _) => expected.Some? && expected.value != |log.commands|
    case _ => false
  }

  function WithoutStale(t: Traced, actions: seq<Action>): seq<Action>
    decreases |actions|
  {
    if actions == [] then []
    else
      (if Stale(t.log, actions[0]) then [] else [actions[0]]) + WithoutStale(Step(t, actions[0]), actions[1..])
  }

  /** Stale calls leave no trace: deleting them from any run changes nothing. */
  lemma {:induction false} StaleCallsAreInvisible(t: Traced, actions: seq<Action>)
    requires Inv(t.lease, t.log)
    ensures Run(t, WithoutStale(t, actions)) == Run(t, actions)
    decreases |actions|
  {
    if actions != [] {
      var rest := WithoutStale(Step(t, actions[0]), actions[1..]);
      StepKeepsInv(t, actions[0]);
      StaleCallsAreInvisible(Step(t, actions[0]), actions[1..]);
      if Stale(t.log, actions[0]) {
        assert Step(t, actions[0]) == t;
        assert WithoutStale(t, actions) == rest;
      } else {
        assert WithoutStale(t, actions)[1..] == rest;
      }
    }
  }

  // ---------------------------------------------------------------------
  // How the output is cut into chunks does not matter
  // ---------------------------------------------------------------------

  function Concat(chunks: seq<string>): string {
    if chunks == [] then "" else chunks[0] + Concat(chunks[1..])
  }

  function Observations(chunks: seq<string>): (r: seq<Action>)
    ensures |r| == |chunks| && forall k :: 0 <= k < |chunks| ==> r[k] == AObserve(chunks[k])
  {
    seq(|chunks|, k requires 0 <= k < |chunks| => AObserve(chunks[k]))
  }

  lemma RecordTwice(l: Lease, l': Lease, log: Log, first: string, second: string)
    ensures Record(Record(log, l, AObserve(first)), l', AObserve(second)) == Record(log, l, AObserve(first + second))
  {
    if log.streamed != [] {
      var last := |log.streamed| - 1;
      assert log.streamed[last] + first + second == log.streamed[last] + (first + second);
    }
  }

  lemma ObserveTwice(t: Traced, first: string, second: string)
    requires Inv(t.lease, t.log)
    ensures Step(Step(t, AObserve(first)), AObserve(second)) == Step(t, AObserve(first + second))
  {
    hide Seen, Record, LastChars;
    var l := t.lease;
    RecordTwice(l, Next(l, AObserve(first)), t.log, first, second);
    if l.sentinel.Some? {
      var sentinel := l.sentinel.value.bytes;
      assert l.tail + first + second == l.tail + (first + second);
      if Seen(l.tail + first, sentinel) {
        SeenGrows(l.tail + first, second, sentinel);
      } else {
        TailSuffices(l.tail + first, second, sentinel);
      }
    }
  }

  /** Reading the output chunk by chunk ends in the very state that reading it
      in one piece would, for every way of cutting it up. */
  lemma {:induction false} ChunkingIsInvisible(t: Traced, chunks: seq<string>)
    requires Inv(t.lease, t.log)
    ensures Run(t, Observations(chunks)) == Step(t, AObserve(Concat(chunks)))
    decreases |chunks|
  {
    if chunks == [] {
      ObserveNothing(t);
    } else {
      StepKeepsInv(t, AObserve(chunks[0]));
      assert Observations(chunks)[1..] == Observations(chunks[1..]);
      ChunkingIsInvisible(Step(t, AObserve(chunks[0])), chunks[1..]);
      ObserveTwice(t, chunks[0], Concat(chunks[1..]));
    }
  }

  lemma ObserveNothing(t: Traced)
    requires Inv(t.lease, t.log)
    ensures Step(t, AObserve("")) == t
  {
    hide Seen;
    if t.log.streamed != [] {
      var last := |t.log.streamed| - 1;
      assert t.log.streamed[last] + "" == t.log.streamed[last];
    }
    if t.lease.sentinel.Some? {
      var stream, sentinel := t.log.streamed[t.lease.epoch - 1], t.lease.sentinel.value.bytes;
      assert t.lease.tail + "" == t.lease.tail && stream + "" == stream;
      TailSuffices(stream, "", sentinel);
    }
  }
}
