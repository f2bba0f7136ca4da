/** The bounded tap between the terminal and a receive loop, together with the
    lease it watches over: one machine whose steps are the tap's `try_send` and
    `close`, the receiver's reads, and the receive loop of one typed command or
    script. */
module TerminalTap {
  import opened Results
  import opened Search
  import opened TerminalLease
  import Script = TerminalScript

  const CAPACITY := 8
  const MAX_OUTPUT_BYTES := 64 * 1024
  const MAX_COLLECTED := 32 * 1024 * 1024

  datatype SendResult = Sent | SendOverflow | SendClosed

  /** The last occurrence of the sentinel is followed by a digit. */
  predicate LastAnswered(text: string, sentinel: string) {
    var last := RFind(text, sentinel);
    last.Some? && last.value + |sentinel| < |text| && IsDigit(text[last.value + |sentinel|])
  }

  function Trim(collected: string): string {
    if |collected| > 4 * MAX_OUTPUT_BYTES then collected[|collected| - 2 * MAX_OUTPUT_BYTES..] else collected
  }

  /** The buffer never holds more than 256 KiB, and gives up nothing before that. */
  lemma BufferIsBounded(collected: string)
    ensures |Trim(collected)| <= 256 * 1024
    ensures |collected| <= 256 * 1024 ==> Trim(collected) == collected
    ensures |collected| > 256 * 1024 ==> Trim(collected) == collected[|collected| - 128 * 1024..]
  {
  }

  /** What a receive loop waits for: a sentinel with a digit behind it, or the
      complete status of a script. */
  datatype Awaited = Answer(sentinel: string) | ScriptStatus(markers: Script.TerminalScriptMarkers)
  {
    function Sentinel(): string {
      match this
      case Answer(sentinel) => sentinel
      case ScriptStatus(markers) => markers.End()
    }

    predicate Arrived(collected: string) {
      match this
      case Answer(sentinel) => LastAnswered(collected, sentinel)
      case ScriptStatus(markers) => Script.TerminalScriptStatus(collected, markers).Some?
    }

    /** Only the output of a typed command is cut. */
    function Kept(collected: string): string {
      if Answer? then Trim(collected) else collected
    }
  }

  /** A receive loop in progress; it owns the receiver's lock until it ends. */
  datatype Exec = Exec(epoch: nat, awaited: Awaited, collected: string)
  {
    /** A script that printed too much is given up. */
    predicate TooMuch() {
      awaited.ScriptStatus? && |collected| > MAX_COLLECTED
    }
  }

  datatype Tap = Tap(
    traced: Traced,
    open: bool,
    receiverAlive: bool,
    queue: seq<string>,
    overflowed: bool,
    exec: Option<Exec>)

  const TAP_START := Tap(START, true, true, [], false, None)

  // ---------------------------------------------------------------------
  // Steps
  // ---------------------------------------------------------------------

  datatype TapAction =
    | Offer(bytes: string)
    | Close
    | DropReceiver
    | Discard
    | Begin(awaited: Awaited, sendOk: bool)
    | Receive
    | GiveUp(sendOk: bool)
    | Elsewhere(a: Action)

  /** What other holders of the lease may do: everything but observing output,
      sending commands and confirming them. */
  predicate Foreign(a: Action) {
    a.ARegister? || a.AUnregister? || a.ARetire? || a.ACancel? || a.AMarkUnknown?
  }

  predicate Accepts(t: Tap) {
    t.open && t.receiverAlive && |t.queue| < CAPACITY
  }

  function OfferResult(t: Tap): SendResult {
    if Accepts(t) then Sent
    else if t.open && t.receiverAlive then SendOverflow
    else SendClosed
  }

  function MarkObserved(t: Traced, observed: Option<nat>): Traced {
    if observed.Some? then Step(t, AMarkUnknown(observed)) else t
  }

  function OfferBytes(t: Tap, bytes: string): Tap {
    var watched := Step(t.traced, AObserve(bytes));
    if !t.open then t.(traced := watched)
    else if Accepts(t) then t.(traced := watched, queue := t.queue + [bytes])
    else t.(traced := MarkObserved(watched, ObservedEpoch(t.traced.lease)),
            open := false,
            overflowed := t.overflowed || t.receiverAlive)
  }

  function BeginCommand(t: Tap, awaited: Awaited, sendOk: bool): Tap {
    if t.exec.Some? then t
    else
      t.(traced := Step(t.traced, AStart(awaited.Sentinel(), sendOk)),
         exec := if Starts(t.traced.lease, awaited.Sentinel(), sendOk)
                 then Some(Exec(t.traced.lease.epoch + 1, awaited, ""))
                 else None)
  }

  /** A loop reads on unless it has collected too much. */
  predicate Reads(t: Tap) {
    t.exec.Some? && t.queue != [] && !t.exec.value.TooMuch()
  }

  function ReceiveChunk(t: Tap): Tap {
    if !Reads(t) then t
    else
      var collected := t.exec.value.collected + t.queue[0];
      var t' := t.(queue := t.queue[1..]);
      if t.exec.value.awaited.Arrived(collected) then
        t'.(traced := Step(t.traced, AComplete(t.exec.value.epoch)), exec := None)
      else t'.(exec := Some(t.exec.value.(collected := t.exec.value.awaited.Kept(collected))))
  }

  function TapNext(t: Tap, a: TapAction): Tap {
    match a
    case Offer(bytes) => OfferBytes(t, bytes)
    case Close => t.(open := false, traced := Step(t.traced, AMarkUnknown(None)))
    case DropReceiver =>
      if t.exec.Some? then t
      else t.(receiverAlive := false, queue := [], traced := Step(t.traced, AMarkUnknown(None)))
    case Discard => if t.exec.Some? || t.queue == [] then t else t.(queue := t.queue[1..])
    case Begin(awaited, sendOk) => BeginCommand(t, awaited, sendOk)
    case Receive => ReceiveChunk(t)
    case GiveUp(sendOk) =>
      if t.exec.None? then t
      else t.(exec := None, traced := Step(t.traced, ACancel(Some(t.exec.value.epoch), sendOk)))
    case Elsewhere(b) => if Foreign(b) then t.(traced := Step(t.traced, b)) else t
  }

  /** The tap's side of the log: every chunk offered to it, those it queued,
      those its receiver took, how much had been offered when each command was
      sent, and where the running loop's buffer begins in what was taken; whether
      the tap was closed or had to refuse a chunk, whether it refused one because
      the queue was full, and whether the receiver was dropped. */
  datatype TapLog = TapLog(
    offered: seq<string>,
    accepted: seq<string>,
    delivered: seq<string>,
    marks: seq<nat>,
    from: nat,
    shut: bool,
    full: bool,
    dropped: bool)
  {
    /** Fewer chunks than the capacity wait for a receiver that is there, and
        nothing has gone wrong before. */
    predicate Fits() {
      !shut && !dropped && |accepted| < |delivered| + CAPACITY
    }

    function OfferAnswer(): SendResult {
      if Fits() then Sent else if !shut && !dropped then SendOverflow else SendClosed
    }
  }

  const EMPTY_TAP_LOG := TapLog([], [], [], [], 0, false, false, false)

  function TapRecord(h: TapLog, t: Tap, a: TapAction): TapLog {
    match a
    case Offer(bytes) =>
      h.(offered := h.offered + [bytes],
         accepted := if h.Fits() then h.accepted + [bytes] else h.accepted,
         shut := h.shut || !h.Fits(),
         full := h.full || h.OfferAnswer().SendOverflow?)
    case Close => h.(shut := true)
    case DropReceiver => if t.exec.Some? then h else h.(dropped := true)
    case Discard => if t.exec.Some? || t.queue == [] then h else h.(delivered := h.delivered + [t.queue[0]])
    case Begin(awaited, sendOk) =>
      if t.exec.None? && Starts(t.traced.lease, awaited.Sentinel(), sendOk) then
        h.(marks := h.marks + [|Concat(h.offered)|], from := |Concat(h.delivered)|)
      else h
    case Receive =>
      if !Reads(t) then h
      else
        var collected := t.exec.value.collected + t.queue[0];
        var kept := t.exec.value.awaited.Kept(collected);
        h.(delivered := h.delivered + [t.queue[0]], from := h.from + |collected| - |kept|)
    case _ => h
  }

  datatype Channel = Channel(tap: Tap, log: TapLog)

  function ChannelStep(c: Channel, a: TapAction): Channel {
    Channel(TapNext(c.tap, a), TapRecord(c.log, c.tap, a))
  }

  function ChannelRun(c: Channel, actions: seq<TapAction>): Channel
    decreases |actions|
  {
    if actions == [] then c else ChannelRun(ChannelStep(c, actions[0]), actions[1..])
  }

  const CHANNEL_START := Channel(TAP_START, EMPTY_TAP_LOG)

  /** The lease actions one channel step performs. */
  function LeaseActions(t: Tap, a: TapAction): seq<Action> {
    match a
    case Offer(bytes) =>
      [AObserve(bytes)]
      + (if t.open && !Accepts(t) && ObservedEpoch(t.traced.lease).Some?
         then [AMarkUnknown(ObservedEpoch(t.traced.lease))]
         else [])
    case Close => [AMarkUnknown(None)]
    case DropReceiver => if t.exec.Some? then [] else [AMarkUnknown(None)]
    case Discard => []
    case Begin(awaited, sendOk) => if t.exec.Some? then [] else [AStart(awaited.Sentinel(), sendOk)]
    case Receive =>
      if Reads(t) && t.exec.value.awaited.Arrived(t.exec.value.collected + t.queue[0]) then
        [AComplete(t.exec.value.epoch)]
      else []
    case GiveUp(sendOk) => if t.exec.None? then [] else [ACancel(Some(t.exec.value.epoch), sendOk)]
    case Elsewhere(b) => if Foreign(b) then [b] else []
  }

  /** A run of the channel is, for the lease, a run of the lease. */
  lemma StepRefinesLease(t: Tap, a: TapAction)
    ensures TapNext(t, a).traced == Run(t.traced, LeaseActions(t, a))
  {
    var acts := LeaseActions(t, a);
    if |acts| == 1 {
      assert acts[1..] == [];
      assert Run(Step(t.traced, acts[0]), acts[1..]) == Step(t.traced, acts[0]);
    } else if |acts| == 2 {
      var watched := Step(t.traced, acts[0]);
      assert acts[1..] == [acts[1]] && acts[1..][1..] == [];
      assert Run(watched, acts[1..]) == Step(watched, acts[1]);
    }
  }

  // ---------------------------------------------------------------------
  // Queueing: a FIFO up to the first failure
  // ---------------------------------------------------------------------

  ghost predicate QueueInv(t: Tap, h: TapLog) {
    && h.accepted <= h.offered
    && |t.queue| <= CAPACITY
    && (t.open ==> h.accepted == h.offered)
    && t.open == !h.shut && t.receiverAlive == !h.dropped && t.overflowed == h.full
    && (t.receiverAlive ==> h.delivered + t.queue == h.accepted)
    && (!t.receiverAlive ==> t.queue == [] && h.delivered <= h.accepted)
    && (t.overflowed ==> !t.open)
  }

  /** How every offer ends, told from the history alone. */
  lemma OffersAnswerByHistory(c: Channel)
    requires QueueInv(c.tap, c.log)
    ensures OfferResult(c.tap) == c.log.OfferAnswer()
    ensures Accepts(c.tap) <==> c.log.Fits()
  {
    assert c.tap.receiverAlive ==> |c.log.delivered| + |c.tap.queue| == |c.log.accepted|;
  }

  lemma {:induction false} StepKeepsQueueInv(c: Channel, a: TapAction)
    requires QueueInv(c.tap, c.log)
    ensures QueueInv(ChannelStep(c, a).tap, ChannelStep(c, a).log)
  {
    hide Step, Trim, LastAnswered, Starts, Awaited.Kept, Awaited.Arrived;
    OffersAnswerByHistory(c);
  }

  lemma {:induction false} RunKeepsQueueInv(c: Channel, actions: seq<TapAction>)
    requires QueueInv(c.tap, c.log)
    ensures QueueInv(ChannelRun(c, actions).tap, ChannelRun(c, actions).log)
    decreases |actions|
  {
    if actions != [] {
      StepKeepsQueueInv(c, actions[0]);
      RunKeepsQueueInv(ChannelStep(c, actions[0]), actions[1..]);
    }
  }

  lemma {:induction false} ClosedAcceptsNothing(c: Channel, actions: seq<TapAction>)
    requires QueueInv(c.tap, c.log) && !c.tap.open
    ensures !ChannelRun(c, actions).tap.open && ChannelRun(c, actions).log.accepted == c.log.accepted
    decreases |actions|
  {
    if actions != [] {
      StepKeepsQueueInv(c, actions[0]);
      ClosedAcceptsNothing(ChannelStep(c, actions[0]), actions[1..]);
    }
  }

  /** The tap is a FIFO until a send first fails. In every run, what the receiver
      has taken is a prefix of what was offered, and together with the queue it
      is everything offered while the tap is open; after a failed send nothing
      offered later ever reaches the receiver. */
  lemma FifoUpToFirstFailure(before: seq<TapAction>, bytes: string, after: seq<TapAction>)
    ensures var c := ChannelRun(CHANNEL_START, before);
            && c.log.delivered <= c.log.offered
            && |c.tap.queue| <= CAPACITY
            && (c.tap.open && c.tap.receiverAlive ==> c.log.delivered + c.tap.queue == c.log.offered)
            && OfferResult(c.tap) == c.log.OfferAnswer()
            && (c.log.OfferAnswer() != Sent ==>
                  var end := ChannelRun(ChannelStep(c, Offer(bytes)), after);
                  && end.log.delivered <= c.log.accepted
                  && (end.tap.receiverAlive ==> end.log.delivered + end.tap.queue == c.log.accepted))
  {
    RunKeepsQueueInv(CHANNEL_START, before);
    var c := ChannelRun(CHANNEL_START, before);
    OffersAnswerByHistory(c);
    if OfferResult(c.tap) != Sent {
      var next := ChannelStep(c, Offer(bytes));
      StepKeepsQueueInv(c, Offer(bytes));
      ClosedAcceptsNothing(next, after);
      RunKeepsQueueInv(next, after);
    }
  }

  // ---------------------------------------------------------------------
  // Which bytes a receive loop can see
  // ---------------------------------------------------------------------

  lemma {:induction false} ConcatAppend(first: seq<string>, second: seq<string>)
    ensures Concat(first + second) == Concat(first) + Concat(second)
    decreases |first|
  {
    if first == [] {
      assert first + second == second;
    } else {
      ConcatAppend(first[1..], second);
      assert (first + second)[1..] == first[1..] + second;
    }
  }

  lemma ConcatSnoc(chunks: seq<string>, chunk: string)
    ensures Concat(chunks + [chunk]) == Concat(chunks) + chunk
  {
    ConcatAppend(chunks, [chunk]);
    assert Concat([chunk]) == chunk + Concat([chunk][1..]);
  }

  lemma ConcatPrefix(part: seq<string>, whole: seq<string>)
    requires part <= whole
    ensures Concat(part) <= Concat(whole)
  {
    ConcatAppend(part, whole[|part|..]);
    assert whole == part + whole[|part|..];
  }

  ghost predicate IsSuffixFrom(part: string, whole: string, from: nat) {
    from <= |whole| && part == whole[from..]
  }

  /** A command's own output, and its receive loop's buffer, as windows of all
      the bytes ever offered to the tap. */
  ghost predicate WindowInv(t: Tap, h: TapLog) {
    var lease, log := t.traced.lease, t.traced.log;
    && |h.marks| == |log.commands| == |log.streamed|
    && (forall k :: 0 <= k < |h.marks| ==> h.marks[k] <= |Concat(h.offered)|)
    && (h.marks != [] ==> IsSuffixFrom(log.streamed[|h.marks| - 1], Concat(h.offered), h.marks[|h.marks| - 1]))
    && (t.exec.Some? ==>
          && 1 <= t.exec.value.epoch == lease.epoch == |log.commands|
          && t.exec.value.awaited.Sentinel() == log.commands[lease.epoch - 1]
          && IsSuffixFrom(t.exec.value.collected, Concat(h.delivered), h.from))
  }

  /** The sentinel and a digit were printed, but from bytes that began before
      the command was even typed. */
  ghost predicate AnsweredEarly(offered: string, sentinel: string, mark: nat) {
    exists at :: 0 <= at < mark && AnsweredAt(offered, sentinel, at)
  }

  /** What a confirmation by a receive loop is worth. */
  ghost predicate Justified(c: Channel, epoch: nat) {
    && 1 <= epoch <= |c.log.marks| == |c.tap.traced.log.commands| == |c.tap.traced.log.streamed|
    && var sentinel := c.tap.traced.log.commands[epoch - 1];
       Seen(c.tap.traced.log.streamed[epoch - 1], sentinel)
       || AnsweredEarly(Concat(c.log.offered), sentinel, c.log.marks[epoch - 1])
  }

  ghost predicate ChannelInv(c: Channel) {
    && QueueInv(c.tap, c.log)
    && Inv(c.tap.traced.lease, c.tap.traced.log)
    && WindowInv(c.tap, c.log)
    && (forall epoch :: epoch in c.tap.traced.log.confirmed ==> Justified(c, epoch))
  }

  /** `later` is further along in the same run. */
  ghost predicate Extends(c: Channel, later: Channel) {
    var log, log' := c.tap.traced.log, later.tap.traced.log;
    && |c.log.marks| == |log.commands| == |log.streamed|
    && |later.log.marks| == |log'.commands| == |log'.streamed|
    && log.commands <= log'.commands
    && c.log.marks <= later.log.marks
    && (forall k :: 0 <= k < |log.streamed| ==> log.streamed[k] <= log'.streamed[k])
    && Concat(c.log.offered) <= Concat(later.log.offered)
  }

  lemma AnsweredInPrefix(part: string, whole: string, sentinel: string, at: int)
    requires part <= whole && AnsweredAt(part, sentinel, at)
    ensures AnsweredAt(whole, sentinel, at)
  {
    assert whole[0..|part|] == part;
    OccursInWindow(sentinel, whole, 0, |part|, at);
  }

  lemma JustifiedStays(c: Channel, later: Channel, epoch: nat)
    requires Extends(c, later) && Justified(c, epoch)
    ensures Justified(later, epoch)
  {
    var sentinel := c.tap.traced.log.commands[epoch - 1];
    var stream, stream' := c.tap.traced.log.streamed[epoch - 1], later.tap.traced.log.streamed[epoch - 1];
    if Seen(stream, sentinel) {
      var at :| 0 <= at < |stream| && AnsweredAt(stream, sentinel, at);
      AnsweredInPrefix(stream, stream', sentinel, at);
    } else {
      var mark := c.log.marks[epoch - 1];
      var at :| 0 <= at < mark && AnsweredAt(Concat(c.log.offered), sentinel, at);
      AnsweredInPrefix(Concat(c.log.offered), Concat(later.log.offered), sentinel, at);
    }
  }

  /** An offer feeds the detector, and at most marks the lease `Unknown`. */
  lemma OfferOnLease(t: Tap, bytes: string)
    requires Inv(t.traced.lease, t.traced.log)
    ensures var t' := OfferBytes(t, bytes);
            && Inv(t'.traced.lease, t'.traced.log)
            && t'.traced.log.Core() == Record(t.traced.log, t.traced.lease, AObserve(bytes)).Core()
            && t'.traced.lease.epoch == t.traced.lease.epoch
            && t'.exec == t.exec
  {
    hide Seen, AnsweredAt, LastAnswered;
    StepKeepsInv(t.traced, AObserve(bytes));
    StepKeepsInv(Step(t.traced, AObserve(bytes)), AMarkUnknown(ObservedEpoch(t.traced.lease)));
  }

  lemma OfferKeepsWindows(c: Channel, later: Channel, bytes: string)
    requires WindowInv(c.tap, c.log)
    requires later.log.offered == c.log.offered + [bytes]
    requires later.log.marks == c.log.marks && later.log.from == c.log.from && later.log.delivered == c.log.delivered
    requires later.tap.traced.log.Core() == Record(c.tap.traced.log, c.tap.traced.lease, AObserve(bytes)).Core()
    requires later.tap.traced.lease.epoch == c.tap.traced.lease.epoch && later.tap.exec == c.tap.exec
    ensures Extends(c, later)
    ensures WindowInv(later.tap, later.log)
  {
    hide Seen, AnsweredAt, LastAnswered;
    ConcatSnoc(c.log.offered, bytes);
    var marks := c.log.marks;
    if marks != [] {
      var last := |marks| - 1;
      assert later.tap.traced.log.streamed[last] == c.tap.traced.log.streamed[last] + bytes;
      assert Concat(later.log.offered)[marks[last]..] == Concat(c.log.offered)[marks[last]..] + bytes;
    }
  }

  lemma OfferKeepsInv(c: Channel, bytes: string)
    requires ChannelInv(c)
    ensures ChannelInv(ChannelStep(c, Offer(bytes)))
  {
    hide Seen, AnsweredAt, LastAnswered;
    var later := ChannelStep(c, Offer(bytes));
    OfferOnLease(c.tap, bytes);
    OfferKeepsWindows(c, later, bytes);
    StepKeepsQueueInv(c, Offer(bytes));
    forall epoch | epoch in later.tap.traced.log.confirmed ensures Justified(later, epoch) {
      JustifiedStays(c, later, epoch);
    }
  }

  lemma BeginKeepsInv(c: Channel, awaited: Awaited, sendOk: bool)
    requires ChannelInv(c)
    ensures ChannelInv(ChannelStep(c, Begin(awaited, sendOk)))
  {
    hide Seen, AnsweredAt, LastAnswered, Awaited.Sentinel, Inv, QueueInv, Justified;
    EpochIsCount(c.tap.traced.lease, c.tap.traced.log);
    var sentinel := awaited.Sentinel();
    var later := ChannelStep(c, Begin(awaited, sendOk));
    StepKeepsInv(c.tap.traced, AStart(sentinel, sendOk));
    StepKeepsQueueInv(c, Begin(awaited, sendOk));
    if c.tap.exec.None? && Starts(c.tap.traced.lease, sentinel, sendOk) {
      assert Concat(c.log.offered)[|Concat(c.log.offered)|..] == "";
      assert Concat(c.log.delivered)[|Concat(c.log.delivered)|..] == "";
      assert Extends(c, later);
      forall epoch | epoch in later.tap.traced.log.confirmed ensures Justified(later, epoch) {
        JustifiedStays(c, later, epoch);
      }
    }
  }

  /** An answer found in a window of the output lies in the part printed since
      `mark`, or began before it. */
  lemma AnswerInWindowOfOutput(offered: string, lo: nat, hi: nat, mark: nat, sentinel: string)
    requires lo <= hi <= |offered| && mark <= |offered|
    requires LastAnswered(offered[lo..hi], sentinel)
    ensures Seen(offered[mark..], sentinel) || AnsweredEarly(offered, sentinel, mark)
  {
    var at := RFind(offered[lo..hi], sentinel).value;
    AnsweredInWindow(offered, lo, hi, sentinel, at);
    if mark <= at + lo {
      assert offered[mark..] == offered[mark..|offered|];
      AnsweredInWindow(offered, mark, |offered|, sentinel, at + lo - mark);
    }
  }

  /** The status of a script stands behind its end marker, as an answer would. */
  lemma ArrivedMeansAnswered(awaited: Awaited, collected: string)
    requires awaited.Arrived(collected)
    ensures LastAnswered(collected, awaited.Sentinel())
  {
    hide RFind;
    if awaited.ScriptStatus? {
      var end := awaited.markers.End();
      Script.RFindOccurs(collected, end);
      var after := collected[RFind(collected, end).value + |end|..];
      assert Script.TakeDigits(after) != "" && Script.TakeDigits(after) <= after;
      assert after[0] == collected[RFind(collected, end).value + |end|];
    }
  }

  /** A receive loop confirms a command only if the bytes it holds end with a
      real answer; every such byte has passed the tap. */
  lemma ReceiveIsJustified(c: Channel)
    requires ChannelInv(c) && Reads(c.tap)
    requires c.tap.exec.value.awaited.Arrived(c.tap.exec.value.collected + c.tap.queue[0])
    ensures Justified(c, c.tap.exec.value.epoch)
  {
    hide Seen, AnsweredAt, LastAnswered, Inv, Awaited.Arrived, Awaited.Sentinel;
    var exec := c.tap.exec.value;
    var taken := c.log.delivered + [c.tap.queue[0]];
    assert taken <= c.log.delivered + c.tap.queue;
    ConcatPrefix(taken, c.log.offered);
    ConcatSnoc(c.log.delivered, c.tap.queue[0]);
    var collected := exec.collected + c.tap.queue[0];
    assert collected == Concat(taken)[c.log.from..];
    assert collected == Concat(c.log.offered)[c.log.from..|Concat(taken)|];
    ArrivedMeansAnswered(exec.awaited, collected);
    AnswerInWindowOfOutput(Concat(c.log.offered), c.log.from, |Concat(taken)|, c.log.marks[exec.epoch - 1],
        exec.awaited.Sentinel());
  }

  lemma KeepsSuffix(awaited: Awaited, collected: string, taken: string, chunk: string, from: nat)
    requires IsSuffixFrom(collected, taken, from)
    ensures var grown := collected + chunk;
            var kept := awaited.Kept(grown);
            |kept| <= |grown| && IsSuffixFrom(kept, taken + chunk, from + |grown| - |kept|)
  {
    var grown := collected + chunk;
    assert grown == (taken + chunk)[from..];
    assert awaited.Kept(grown) == grown[|grown| - |awaited.Kept(grown)|..];
  }

  lemma ReceiveKeepsWindows(c: Channel)
    requires ChannelInv(c)
    ensures Extends(c, ChannelStep(c, Receive))
    ensures WindowInv(ChannelStep(c, Receive).tap, ChannelStep(c, Receive).log)
  {
    hide Seen, AnsweredAt, Concat, Awaited.Arrived, Awaited.Kept, Awaited.Sentinel, Inv, QueueInv, Justified;
    var later := ChannelStep(c, Receive);
    assert later.tap.traced.log.(confirmed := {}) == c.tap.traced.log.(confirmed := {});
    assert later.tap.traced.lease.epoch == c.tap.traced.lease.epoch;
    if Reads(c.tap) {
      var exec := c.tap.exec.value;
      ConcatSnoc(c.log.delivered, c.tap.queue[0]);
      KeepsSuffix(exec.awaited, exec.collected, Concat(c.log.delivered), c.tap.queue[0], c.log.from);
    }
  }

  lemma ReceiveKeepsInv(c: Channel)
    requires ChannelInv(c)
    ensures ChannelInv(ChannelStep(c, Receive))
  {
    hide Seen, AnsweredAt, Concat, Awaited.Arrived, Awaited.Kept, Awaited.Sentinel;
    var later := ChannelStep(c, Receive);
    StepKeepsQueueInv(c, Receive);
    ReceiveKeepsWindows(c);
    if Reads(c.tap) && c.tap.exec.value.awaited.Arrived(c.tap.exec.value.collected + c.tap.queue[0]) {
      StepKeepsInv(c.tap.traced, AComplete(c.tap.exec.value.epoch));
      ReceiveIsJustified(c);
    }
    forall epoch | epoch in later.tap.traced.log.confirmed ensures Justified(later, epoch) {
      JustifiedStays(c, later, epoch);
    }
  }

  /** The epochs that a step of the tap leaves in doubt: when it is closed or its
      receiver dropped, the newest command; and when a chunk is refused for the
      first time, the newest command unless it was over. */
  ghost function DoubtedBy(c: Channel, a: TapAction): set<nat> {
    var log := c.tap.traced.log;
    var newest := |log.commands|;
    match a
    case Offer(_) => if !c.log.shut && !c.log.Fits() && 1 <= newest && !Over(log, newest) then {newest} else {}
    case Close => {newest}
    case DropReceiver => if c.tap.exec.None? then {newest} else {}
    case _ => {}
  }

  lemma {:induction false} TapDoubtsExactly(c: Channel, a: TapAction)
    requires ChannelInv(c) && (a.Offer? || a.Close? || a.DropReceiver? || a.Discard? || a.Receive?)
    ensures ChannelStep(c, a).tap.traced.log.doubted == c.tap.traced.log.doubted + DoubtedBy(c, a)
    ensures a.DropReceiver? && c.tap.exec.None? ==> ChannelStep(c, a).tap.queue == []
  {
    hide Inv, QueueInv, WindowInv, Justified, Over, Next, Awaited.Arrived, Awaited.Kept, Awaited.Sentinel, Concat;
    if a.Offer? {
      OfferDoubts(c, a.bytes);
    }
  }

  lemma {:induction false} OfferDoubts(c: Channel, bytes: string)
    requires QueueInv(c.tap, c.log) && Inv(c.tap.traced.lease, c.tap.traced.log)
    ensures OfferBytes(c.tap, bytes).traced.log.doubted
         == c.tap.traced.log.doubted + DoubtedBy(c, Offer(bytes))
  {
    hide Inv, QueueInv, Over, Observe, Concat;
    var l, log := c.tap.traced.lease, c.tap.traced.log;
    OffersAnswerByHistory(c);
    PendingIsArmed(l, log);
    EpochIsCount(l, log);
    assert c.tap.open == !c.log.shut by {
      OpenIsNotShut(c);
    }
  }

  lemma OpenIsNotShut(c: Channel)
    requires QueueInv(c.tap, c.log)
    ensures c.tap.open == !c.log.shut
  {
  }

  /** The detector looks at the output exactly while a command is not over. */
  lemma PendingIsArmed(l: Lease, log: Log)
    requires Inv(l, log)
    ensures ObservedEpoch(l) ==
            if 1 <= |log.commands| && !Over(log, |log.commands|) then Some(|log.commands|) else None
  {
    hide Seen;
  }

  /** A loop begins exactly with a command that may start. */
  lemma {:induction false} LoopsBegin(c: Channel, awaited: Awaited, sendOk: bool)
    requires ChannelInv(c) && c.tap.exec.None?
    ensures var begun, log := ChannelStep(c, Begin(awaited, sendOk)), c.tap.traced.log;
            var answer := StartAnswer(log, awaited.Sentinel(), sendOk);
            && begun.tap.exec == (if answer.Ok? then Some(Exec(answer.value, awaited, "")) else None)
            && begun.tap.traced.log.commands ==
               (if answer.Ok? then log.commands + [awaited.Sentinel()] else log.commands)
  {
    hide Inv, QueueInv, WindowInv, Justified, StartAnswer, StartRefusal, Awaited.Sentinel, Concat;
    var l, log := c.tap.traced.lease, c.tap.traced.log;
    AnswersAreHistory(l, log, awaited.Sentinel(), None, sendOk);
    SendsExactly(l, log, awaited.Sentinel(), None, sendOk);
  }

  /** It reads chunk by chunk, and ends, confirming its command, exactly with the
      chunk that completes what it waits for. */
  lemma {:induction false} LoopsRead(c: Channel)
    requires ChannelInv(c) && Reads(c.tap)
    ensures var exec, read := c.tap.exec.value, ChannelStep(c, Receive);
            var collected := exec.collected + c.tap.queue[0];
            && read.tap.queue == c.tap.queue[1..]
            && (read.tap.exec.None? <==> exec.awaited.Arrived(collected))
            && (exec.awaited.Arrived(collected) ==> Over(read.tap.traced.log, exec.epoch))
  {
    hide Inv, QueueInv, Justified, Complete, Awaited.Arrived, Awaited.Kept, Awaited.Sentinel, Concat, Seen;
  }

  /** Or it is given up, which retires the lease, and interrupts a command that was
      neither over nor interrupted before. */
  lemma {:induction false} LoopsGiveUp(c: Channel, sendOk: bool)
    requires ChannelInv(c) && c.tap.exec.Some?
    ensures var newest, log, ended := c.tap.exec.value.epoch, c.tap.traced.log, ChannelStep(c, GiveUp(sendOk));
            && ended.tap.exec.None? && ended.tap.traced.log.retired
            && ended.tap.traced.log.interrupts ==
               (if Over(log, newest) || newest in log.interrupts then log.interrupts else log.interrupts + [newest])
  {
    hide Inv, QueueInv, Justified, Cancel, Interrupts, Over, Awaited.Sentinel, Concat;
    var newest := Some(c.tap.exec.value.epoch);
    SendsExactly(c.tap.traced.lease, c.tap.traced.log, "", newest, sendOk);
  }

  predicate IsQuiet(a: TapAction) {
    a.Close? || a.DropReceiver? || a.GiveUp? || a.Elsewhere? || a.Discard?
  }

  lemma ForeignOnLease(t: Traced, b: Action)
    requires Foreign(b) && Inv(t.lease, t.log)
    ensures Inv(Step(t, b).lease, Step(t, b).log)
    ensures Step(t, b).lease.epoch == t.lease.epoch
    ensures Step(t, b).log.Core() == t.log.Core()
  {
    hide Seen, AnsweredAt, LastAnswered;
    StepKeepsInv(t, b);
  }

  lemma QuietOnLease(t: Tap, a: TapAction)
    requires IsQuiet(a) && Inv(t.traced.lease, t.traced.log)
    ensures var t' := TapNext(t, a);
            && Inv(t'.traced.lease, t'.traced.log)
            && t'.traced.lease.epoch == t.traced.lease.epoch
            && t'.traced.log.Core() == t.traced.log.Core()
            && (t'.exec.None? || (t'.exec == t.exec && !a.Discard?) || t' == t)
  {
    hide Seen, AnsweredAt, LastAnswered;
    match a
    case Close => ForeignOnLease(t.traced, AMarkUnknown(None));
    case DropReceiver => ForeignOnLease(t.traced, AMarkUnknown(None));
    case GiveUp(sendOk) =>
      if t.exec.Some? {
        ForeignOnLease(t.traced, ACancel(Some(t.exec.value.epoch), sendOk));
      }
    case Elsewhere(b) =>
      if Foreign(b) {
        ForeignOnLease(t.traced, b);
      }
    case _ =>
  }

  lemma ChannelStepKeepsInv(c: Channel, a: TapAction)
    requires ChannelInv(c)
    ensures ChannelInv(ChannelStep(c, a))
  {
    hide Seen, AnsweredAt, LastAnswered;
    match a
    case Offer(bytes) => OfferKeepsInv(c, bytes);
    case Begin(awaited, sendOk) => BeginKeepsInv(c, awaited, sendOk);
    case Receive => ReceiveKeepsInv(c);
    case _ =>
      QuietOnLease(c.tap, a);
      StepKeepsQueueInv(c, a);
  }

  lemma {:induction false} ChannelRunKeepsInv(c: Channel, actions: seq<TapAction>)
    requires ChannelInv(c)
    ensures ChannelInv(ChannelRun(c, actions))
    decreases |actions|
  {
    if actions != [] {
      ChannelStepKeepsInv(c, actions[0]);
      ChannelRunKeepsInv(ChannelStep(c, actions[0]), actions[1..]);
    }
  }

  /** Every command sent before the newest, and every command at all once the
      terminal may be handed on, has had its sentinel and a digit printed: after
      it was typed, or at the earliest from bytes that began before it was. */
  lemma SettledMeansAnswered(actions: seq<TapAction>)
    ensures var c := ChannelRun(CHANNEL_START, actions);
            && (forall epoch :: 1 <= epoch < |c.tap.traced.log.commands| ==> Justified(c, epoch))
            && (CanRelease(c.tap.traced.lease) ==>
                  forall epoch :: 1 <= epoch <= |c.tap.traced.log.commands| ==> Justified(c, epoch))
  {
    hide Seen, AnsweredAt, LastAnswered;
    StartSatisfiesInv();
    ChannelRunKeepsInv(CHANNEL_START, actions);
    var c := ChannelRun(CHANNEL_START, actions);
    assert forall epoch :: 1 <= epoch <= |c.tap.traced.log.commands| && Over(c.tap.traced.log, epoch) ==>
        Justified(c, epoch);
  }

  ghost predicate DetectionExact(c: Channel) {
    var sent := |c.tap.traced.log.commands|;
    && |c.log.marks| == sent
    && (sent > 0 ==>
          var sentinel, mark := c.tap.traced.log.commands[sent - 1], c.log.marks[sent - 1];
          && mark <= |Concat(c.log.offered)|
          && (!AnsweredEarly(Concat(c.log.offered), sentinel, mark) ==>
                (c.tap.traced.lease.phase.Completed? <==> Seen(Concat(c.log.offered)[mark..], sentinel))))
  }

  lemma DetectionExactInState(c: Channel)
    requires ChannelInv(c)
    ensures DetectionExact(c)
  {
    hide Seen, AnsweredEarly, QueueInv, Concat;
    var sent := |c.tap.traced.log.commands|;
    if sent > 0 {
      assert Over(c.tap.traced.log, sent) <==> c.tap.traced.lease.phase.Completed?;
      assert sent in c.tap.traced.log.confirmed ==> Justified(c, sent);
    }
  }

  /** Detection needs neither the queue nor the receive loop. Unless an answer
      began before the command was typed, the lease is `Completed` exactly when
      the bytes offered to the tap since then hold the answer, whatever the
      queue accepted, and whether it overflowed or was closed. */
  lemma DetectionSurvivesTheQueue(actions: seq<TapAction>)
    ensures DetectionExact(ChannelRun(CHANNEL_START, actions))
  {
    StartSatisfiesInv();
    ChannelRunKeepsInv(CHANNEL_START, actions);
    DetectionExactInState(ChannelRun(CHANNEL_START, actions));
  }
}
