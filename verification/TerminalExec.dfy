/** The shared execution state behind a terminal tap, updated in place under its
    mutex. Every method is one critical section. */
module TerminalExec {
  import opened Results
  import opened TerminalLease

  class TerminalExecShared {
    var leaseState: Phase
    var retired: bool
    var interruptAttempted: bool
    var commandEpoch: nat
    var sentinel: Option<Sentinel>
    var usedSentinels: set<string>
    var sentinelTail: string
    var owners: nat

    ghost var log: Log

    ghost function Value(): Lease
      reads this
    {
      Lease(leaseState, retired, interruptAttempted, commandEpoch, sentinel, usedSentinels, sentinelTail, owners)
    }

    ghost function State(): Traced
      reads this
    {
      Traced(Value(), log)
    }

    ghost predicate Valid()
      reads this
    {
      Inv(Value(), log)
    }

    constructor ()
      ensures Valid() && State() == START
    {
      leaseState, retired, interruptAttempted, commandEpoch := Reserved, false, false, 0;
      sentinel, usedSentinels, sentinelTail, owners := None, {}, "", 0;
      log := EMPTY_LOG;
      new;
      StartSatisfiesInv();
    }

    method RegisterOwner()
      requires Valid()
      modifies this
      ensures Valid() && State() == Step(old(State()), ARegister)
    {
      hide Inv, Seen;
      StepKeepsInv(State(), ARegister);
      log := Record(log, Value(), ARegister);
      owners := (owners + 1) % (MAX_U64 + 1);
    }

    method UnregisterOwner()
      requires Valid()
      modifies this
      ensures Valid() && State() == Step(old(State()), AUnregister)
    {
      hide Inv, Seen;
      StepKeepsInv(State(), AUnregister);
      log := Record(log, Value(), AUnregister);
      var previous := owners;
      owners := if previous == 0 then MAX_U64 else previous - 1;
      if previous != 1 {
        return;
      }
      if leaseState == Reserved {
        leaseState := Released;
      }
    }

    /** `sendOk` is the outcome of the send callback, which runs only when the
        returned `sendCalled` says so. */
    method StartCommand(newSentinel: string, sendOk: bool) returns (result: Result<nat, StartError>, sendCalled: bool)
      requires Valid()
      modifies this
      ensures Valid() && State() == Step(old(State()), AStart(newSentinel, sendOk))
      ensures result == StartResult(old(Value()), newSentinel, sendOk)
      ensures result == StartAnswer(old(log), newSentinel, sendOk)
      ensures sendCalled <==> result.Ok? || result.error.SendFailed?
    {
      hide Inv, Seen;
      StepKeepsInv(State(), AStart(newSentinel, sendOk));
      AnswersAreHistory(Value(), log, newSentinel, None, sendOk);
      sendCalled := false;
      if retired {
        return Err(LeaseRetired), false;
      }
      match leaseState {
        case Reserved | Released | Completed =>
        case Running | InterruptRequested => return Err(CommandActive), false;
        case Unknown => return Err(PreviousMayRun), false;
      }
      if commandEpoch >= MAX_U64 {
        return Err(EpochExhausted), false;
      }
      if newSentinel == "" {
        return Err(EmptySentinel), false;
      }
      if newSentinel in usedSentinels {
        return Err(SentinelReused), false;
      }
      sendCalled := true;
      if !sendOk {
        return Err(SendFailed), true;
      }
      log := Record(log, Value(), AStart(newSentinel, sendOk));
      commandEpoch := commandEpoch + 1;
      leaseState := Running;
      interruptAttempted := false;
      usedSentinels := usedSentinels + {newSentinel};
      sentinel := Some(Sentinel(commandEpoch, newSentinel));
      sentinelTail := "";
      result := Ok(commandEpoch);
    }

    method Retire()
      requires Valid()
      modifies this
      ensures Valid() && State() == Step(old(State()), ARetire)
    {
      hide Inv, Seen;
      StepKeepsInv(State(), ARetire);
      log := Record(log, Value(), ARetire);
      retired := true;
      if leaseState == Reserved {
        leaseState := Released;
      }
    }

    method CancelMatching(expected: Option<nat>, sendOk: bool) returns (outcome: CancelResult, interruptCalled: bool)
      requires Valid()
      modifies this
      ensures Valid() && State() == Step(old(State()), ACancel(expected, sendOk))
      ensures outcome == CancelOutcome(old(Value()), expected, sendOk)
      ensures outcome == CancelAnswer(old(log), expected, sendOk)
      ensures interruptCalled <==> log.interrupts != old(log).interrupts
    {
      hide Inv, Seen;
      StepKeepsInv(State(), ACancel(expected, sendOk));
      AnswersAreHistory(Value(), log, "", expected, sendOk);
      log := Record(log, Value(), ACancel(expected, sendOk));
      if expected.Some? && expected.value != commandEpoch {
        return Cancelled(false), false;
      }
      retired := true;
      if leaseState == Reserved {
        leaseState := Released;
        return Cancelled(false), false;
      }
      if (leaseState == Running || leaseState == Unknown) && sentinel.Some? && !interruptAttempted {
        interruptAttempted := true;
        if leaseState == Running {
          leaseState := InterruptRequested;
        }
        if !sendOk {
          leaseState := Unknown;
          return InterruptFailed, true;
        }
        return Cancelled(true), true;
      }
      return Cancelled(false), false;
    }

    method Complete(epoch: nat)
      requires Valid()
      modifies this
      ensures Valid() && State() == Step(old(State()), AComplete(epoch))
    {
      hide Inv, Seen;
      StepKeepsInv(State(), AComplete(epoch));
      log := Record(log, Value(), AComplete(epoch));
      if commandEpoch != epoch || leaseState == Completed {
        return;
      }
      leaseState := Completed;
      sentinel := None;
      sentinelTail := "";
    }

    method MarkUnknownIfPending(expected: Option<nat>)
      requires Valid()
      modifies this
      ensures Valid() && State() == Step(old(State()), AMarkUnknown(expected))
    {
      hide Inv, Seen;
      StepKeepsInv(State(), AMarkUnknown(expected));
      log := Record(log, Value(), AMarkUnknown(expected));
      if expected.Some? && expected.value != commandEpoch {
        return;
      }
      if leaseState != Running && leaseState != InterruptRequested {
        return;
      }
      leaseState := Unknown;
    }

    method ObserveOutput(bytes: string) returns (observed: Option<nat>)
      requires Valid()
      modifies this
      ensures Valid() && State() == Step(old(State()), AObserve(bytes))
      ensures observed == ObservedEpoch(old(Value()))
    {
      hide Inv, Seen;
      StepKeepsInv(State(), AObserve(bytes));
      log := Record(log, Value(), AObserve(bytes));
      if leaseState != Running && leaseState != InterruptRequested && leaseState != Unknown {
        return None;
      }
      if sentinel.None? {
        return None;
      }
      var armed := sentinel.value;
      if armed.epoch != commandEpoch || armed.bytes == "" {
        return None;
      }
      sentinelTail := sentinelTail + bytes;
      if Seen(sentinelTail, armed.bytes) {
        leaseState := Completed;
        sentinel := None;
        sentinelTail := "";
        return Some(armed.epoch);
      }
      if |sentinelTail| > |armed.bytes| {
        sentinelTail := sentinelTail[|sentinelTail| - |armed.bytes|..];
      }
      return Some(armed.epoch);
    }

    method CanReleaseLease() returns (r: bool)
      requires Valid()
      ensures r == CanRelease(Value())
      ensures r <==> HandOn(log)
    {
      AnswersAreHistory(Value(), log, "", None, true);
      r := (leaseState == Released || leaseState == Completed) && (retired || owners == 0);
    }
  }
}
