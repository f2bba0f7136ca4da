/** Attaching a worker's command channel to a session races with requests to
    close the session. The channel slot has a lock; the request flag has none. */
module CloseHandshake {

  /** `Checked` remembers what the flag said inside the lock. */
  datatype Attaching = NotAttached | Locked | Checked(saw: bool) | Attached

  /** `Looked` remembers whether the slot held a channel. */
  datatype Requesting = Called | Flagged | Looked(found: bool) | Returned(found: bool)

  /** `sent` counts the Close commands that reached the worker. */
  datatype Session = Session(requested: bool, attaching: Attaching, requests: seq<Requesting>, sent: nat)

  const FRESH := Session(false, NotAttached, [], 0)

  datatype Step =
    | Call
    | Advance(request: nat)
    | TakeSlot
    | CheckFlag
    | FillSlot

  predicate SlotLocked(s: Session) {
    s.attaching.Locked? || s.attaching.Checked?
  }

  function WithRequest(s: Session, request: nat, next: Requesting): Session
    requires request < |s.requests|
  {
    s.(requests := s.requests[request := next])
  }

  function Next(s: Session, step: Step): Session {
    match step
    case Call => s.(requests := s.requests + [Called])
    case Advance(request) =>
      if |s.requests| <= request then
        s
      else (match s.requests[request]
            case Called => WithRequest(s, request, Flagged).(requested := true)
            // Looking into the slot takes its lock.
            case Flagged => if SlotLocked(s) then s else WithRequest(s, request, Looked(s.attaching.Attached?))
            case Looked(found) => WithRequest(s, request, Returned(found)).(sent := s.sent + (if found then 1 else 0))
            case Returned(_) => s)
    case TakeSlot => if s.attaching.NotAttached? then s.(attaching := Locked) else s
    case CheckFlag =>
      if s.attaching.Locked? then
        s.(attaching := Checked(s.requested), sent := s.sent + (if s.requested then 1 else 0))
      else
        s
    case FillSlot => if s.attaching.Checked? then s.(attaching := Attached) else s
  }

  function Run(s: Session, steps: seq<Step>): Session {
    if steps == [] then s else Next(Run(s, steps[..|steps| - 1]), steps[|steps| - 1])
  }

  /** A request that found the slot empty looked before the flag was read. */
  predicate RequestInv(s: Session, request: Requesting) {
    && (!request.Called? ==> s.requested)
    && (request.Returned? && request.found ==> s.sent > 0)
    && ((request.Looked? || request.Returned?) && !request.found ==>
          s.attaching.NotAttached? || s.attaching.Locked? || s.sent > 0)
  }

  predicate Inv(s: Session) {
    && (forall i :: 0 <= i < |s.requests| ==> RequestInv(s, s.requests[i]))
    && (s.attaching.Checked? && s.attaching.saw ==> s.sent > 0)
    && (s.sent > 0 ==> s.requested)
  }

  lemma NextKeepsInv(s: Session, step: Step)
    requires Inv(s)
    ensures Inv(Next(s, step))
  {
    var next := Next(s, step);
    forall i | 0 <= i < |next.requests|
      ensures RequestInv(next, next.requests[i])
    {
      if i < |s.requests| {
        assert RequestInv(s, s.requests[i]);
      }
    }
    if step.Advance? && step.request < |s.requests| {
      assert RequestInv(s, s.requests[step.request]);
    }
  }

  lemma {:induction false} RunKeepsInv(steps: seq<Step>)
    ensures Inv(Run(FRESH, steps))
  {
    if steps != [] {
      RunKeepsInv(steps[..|steps| - 1]);
      NextKeepsInv(Run(FRESH, steps[..|steps| - 1]), steps[|steps| - 1]);
    }
  }

  /** In every interleaving of attaching with any number of requests: once the
      worker is attached and a request has returned, Close was sent; and Close is
      never sent unless somebody asked. */
  lemma CloseIsAlwaysSent(steps: seq<Step>, request: nat)
    ensures Run(FRESH, steps).sent > 0 ==> Run(FRESH, steps).requested
    ensures request < |Run(FRESH, steps).requests| && Run(FRESH, steps).requests[request].Returned?
            && Run(FRESH, steps).attaching.Attached?
            ==> Run(FRESH, steps).sent > 0
  {
    RunKeepsInv(steps);
    var s := Run(FRESH, steps);
    if request < |s.requests| {
      assert RequestInv(s, s.requests[request]);
    }
  }

  /** A request that nobody disturbs gets through: the flag is set, and Close is
      sent once if the slot holds a channel. While the slot is locked, it waits. */
  lemma RequestGetsThrough(s: Session, request: nat)
    requires request < |s.requests| && s.requests[request].Called?
    ensures var flagged := Next(s, Advance(request));
            && flagged == WithRequest(s, request, Flagged).(requested := true)
            && (SlotLocked(s) ==> Next(flagged, Advance(request)) == flagged)
            && (!SlotLocked(s) ==>
                  Next(Next(flagged, Advance(request)), Advance(request))
                  == Session(true, s.attaching, s.requests[request := Returned(s.attaching.Attached?)],
                             s.sent + (if s.attaching.Attached? then 1 else 0)))
  {
    var flagged := Next(s, Advance(request));
    if !SlotLocked(s) {
      var looked := Next(flagged, Advance(request));
      assert looked.requests == s.requests[request := Looked(s.attaching.Attached?)];
      assert Next(looked, Advance(request)).requests == s.requests[request := Returned(s.attaching.Attached?)];
    }
  }

  /** Anybody may ask at any time; the attaching side takes its three steps once, and
      in their order. */
  lemma {:induction false} StepsInPlace(s: Session)
    ensures Next(s, Call) == s.(requests := s.requests + [Called])
    ensures Next(s, TakeSlot) != s <==> s.attaching.NotAttached?
    ensures Next(s, CheckFlag) != s <==> s.attaching.Locked?
    ensures Next(s, FillSlot) != s <==> s.attaching.Checked?
  {
  }

  /** So does attaching, which sends Close once if it was asked for. */
  lemma AttachGetsThrough(s: Session)
    requires s.attaching.NotAttached?
    ensures Next(Next(Next(s, TakeSlot), CheckFlag), FillSlot)
         == s.(attaching := Attached, sent := s.sent + (if s.requested then 1 else 0))
  {
  }

  lemma RunSnoc(steps: seq<Step>, step: Step)
    ensures Run(FRESH, steps + [step]) == Next(Run(FRESH, steps), step)
  {
    assert (steps + [step])[..|steps|] == steps;
  }

  /** A request that returned empty-handed has left the sending to the attaching
      side, which cannot miss it. */
  lemma AttachingTakesOver(steps: seq<Step>, request: nat)
    requires request < |Run(FRESH, steps).requests|
    requires Run(FRESH, steps).requests[request] == Returned(false)
    requires Run(FRESH, steps).sent == 0
    ensures var s := Run(FRESH, steps);
            Run(FRESH, steps + [TakeSlot] + [CheckFlag] + [FillSlot]) == s.(attaching := Attached, sent := 1)
  {
    RunKeepsInv(steps);
    var s := Run(FRESH, steps);
    assert RequestInv(s, s.requests[request]);
    RunSnoc(steps, TakeSlot);
    RunSnoc(steps + [TakeSlot], CheckFlag);
    RunSnoc(steps + [TakeSlot] + [CheckFlag], FillSlot);
  }
}
