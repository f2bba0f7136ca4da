/** The tap and its receiver as the objects the program updates. */
module TerminalChannel {
  import opened Results
  import opened TerminalLease
  import opened TerminalExec
  import opened TerminalTap

  class TerminalOutputChannel {
    const shared: TerminalExecShared
    var senderOpen: bool
    var receiverAlive: bool
    var queue: seq<string>
    var overflowed: bool
    var exec: Option<Exec>

    ghost var history: TapLog

    ghost function Value(): Tap
      reads this, shared
    {
      Tap(shared.State(), senderOpen, receiverAlive, queue, overflowed, exec)
    }

    ghost function State(): Channel
      reads this, shared
    {
      Channel(Value(), history)
    }

    ghost predicate Valid()
      reads this, shared
    {
      ChannelInv(State())
    }

    constructor ()
      ensures Valid() && fresh(shared) && State() == CHANNEL_START
    {
      shared := new TerminalExecShared();
      senderOpen, receiverAlive, queue, overflowed, exec := true, true, [], false, None;
      history := EMPTY_TAP_LOG;
    }

    method TrySend(bytes: string) returns (result: SendResult)
      requires Valid()
      modifies this, shared
      ensures Valid() && State() == ChannelStep(old(State()), Offer(bytes))
      ensures result == OfferResult(old(Value())) == old(history).OfferAnswer()
    {
      hide Inv, WindowInv, QueueInv, Justified, TapLog.Fits;
      ChannelStepKeepsInv(State(), Offer(bytes));
      OffersAnswerByHistory(State());
      history := TapRecord(history, Value(), Offer(bytes));
      if !senderOpen {
        var _ := shared.ObserveOutput(bytes);
        return SendClosed;
      }
      var observed := shared.ObserveOutput(bytes);
      if receiverAlive && |queue| < CAPACITY {
        queue := queue + [bytes];
        return Sent;
      }
      result := if receiverAlive then SendOverflow else SendClosed;
      if receiverAlive {
        overflowed := true;
      }
      senderOpen := false;
      if observed.Some? {
        OfferOnLease(old(Value()), bytes);
        shared.MarkUnknownIfPending(observed);
      }
    }

    method CloseTap()
      requires Valid()
      modifies this, shared
      ensures Valid() && State() == ChannelStep(old(State()), Close)
    {
      hide Inv, WindowInv, QueueInv, Justified;
      ChannelStepKeepsInv(State(), Close);
      history := TapRecord(history, Value(), Close);
      senderOpen := false;
      shared.MarkUnknownIfPending(None);
    }

    method DropReceiver()
      requires Valid() && exec.None?
      modifies this, shared
      ensures Valid() && State() == ChannelStep(old(State()), TapAction.DropReceiver)
    {
      hide Inv, WindowInv, QueueInv, Justified;
      ChannelStepKeepsInv(State(), TapAction.DropReceiver);
      history := TapRecord(history, Value(), TapAction.DropReceiver);
      receiverAlive := false;
      queue := [];
      shared.MarkUnknownIfPending(None);
    }

    /** Discards what is queued before the next command is typed. */
    method DrainPending()
      requires Valid() && exec.None?
      modifies this
      ensures Valid() && queue == []
      ensures State() == ChannelRun(old(State()), seq(|old(queue)|, _ => Discard))
    {
      hide Inv, WindowInv, QueueInv, Justified;
      ghost var before, drained := State(), 0;
      while queue != []
        invariant Valid() && exec.None? && drained + |queue| == |before.tap.queue|
        invariant ChannelRun(State(), seq(|queue|, _ => Discard))
            == ChannelRun(before, seq(|before.tap.queue|, _ => Discard))
        decreases |queue|
      {
        ghost var discards := seq(|queue|, _ => Discard);
        assert discards[1..] == seq(|queue| - 1, _ => Discard);
        ChannelStepKeepsInv(State(), Discard);
        history := TapRecord(history, Value(), Discard);
        queue := queue[1..];
        drained := drained + 1;
      }
      assert seq(|queue|, _ => Discard) == [];
    }

    /** `awaited` tells a typed command from a script. */
    method BeginCommand(awaited: Awaited, sendOk: bool) returns (result: Result<nat, StartError>)
      requires Valid() && exec.None?
      modifies this, shared
      ensures Valid() && State() == ChannelStep(old(State()), Begin(awaited, sendOk))
      ensures result == StartResult(old(shared.Value()), awaited.Sentinel(), sendOk)
    {
      hide Inv, WindowInv, QueueInv, Justified, Awaited.Sentinel;
      ChannelStepKeepsInv(State(), Begin(awaited, sendOk));
      history := TapRecord(history, Value(), Begin(awaited, sendOk));
      var called: bool;
      result, called := shared.StartCommand(awaited.Sentinel(), sendOk);
      if result.Ok? {
        exec := Some(Exec(result.value, awaited, ""));
      }
    }

    /** One turn of the receive loop; `answered` ends it. A script that has printed
        too much is given up instead. */
    method ReceiveOne() returns (answered: bool)
      requires Valid() && exec.Some? && queue != [] && !exec.value.TooMuch()
      modifies this, shared
      ensures Valid() && State() == ChannelStep(old(State()), Receive)
      ensures answered <==> exec.None?
      ensures answered ==> Justified(State(), old(exec).value.epoch)
    {
      hide Inv, WindowInv, QueueInv, Justified, Awaited.Arrived, Awaited.Kept, Awaited.Sentinel;
      ChannelStepKeepsInv(State(), Receive);
      history := TapRecord(history, Value(), Receive);
      var running := exec.value;
      var collected := running.collected + queue[0];
      queue := queue[1..];
      answered := running.awaited.Arrived(collected);
      if answered {
        ReceiveIsJustified(old(State()));
        ReceiveKeepsWindows(old(State()));
        JustifiedStays(old(State()), ChannelStep(old(State()), Receive), running.epoch);
        shared.Complete(running.epoch);
        exec := None;
      } else {
        exec := Some(running.(collected := running.awaited.Kept(collected)));
      }
    }

    /** A timeout, a closed tap, too much output or a dropped guard ends the loop
        with a Ctrl-C. */
    method GiveUpCommand(sendOk: bool)
      requires Valid() && exec.Some?
      modifies this, shared
      ensures Valid() && State() == ChannelStep(old(State()), GiveUp(sendOk))
    {
      hide Inv, WindowInv, QueueInv, Justified;
      ChannelStepKeepsInv(State(), GiveUp(sendOk));
      var _, _ := shared.CancelMatching(Some(exec.value.epoch), sendOk);
      exec := None;
    }
  }
}
