/** No step of the sniffer is without end: how many steps of the timer task and of the callback
  * are left until they rest, not counting the rounds of a spin loop. */
module Progress {
  import opened Sniffer
  import opened Delivery

  /** The timer task looks at one half of its guard, in2 and turn == 2, and has to look again. */
  predicate TimerSpins(d: Device) { ((d.timer.GaveTurn? && d.in2) || d.timer.SawIn2?) && d.turn == 2 }

  /** So does the callback, with in1 and turn == 1. */
  predicate HandlerSpins(d: Device) { ((d.handler.YieldedTurn? && d.in1) || d.handler.SawIn1?) && d.turn == 1 }

  /** The steps that one attempt to send s packets takes, and those of the attempts after it. */
  function OneAttempt(s: nat): nat { 3 * s + 3 }

  function LaterAttempts(attempt: nat, s: nat): nat {
    if attempt == 0 then 2 * OneAttempt(s) else if attempt == 1 then OneAttempt(s) else 0
  }

  /** At most as many steps until the timer task rests. */
  function TimerLeft(d: Device): int {
    match d.timer
    case Idle => 0
    case Asked => 2311
    case GaveTurn => 2310
    case SawIn2 => if d.turn == 2 then 2310 else 2309
    case Loading => 2308
    case Storing(seen) => 9 * seen + 12
    case Clearing => 9 * d.sniffCount + 11
    case Leaving => 9 * d.sniffCount + 10
    case Dialling(attempt) => LaterAttempts(attempt, d.sniffCount) + OneAttempt(d.sniffCount)
    case Writing(attempt, i, _) => LaterAttempts(attempt, d.sniffCount) + 3 * (d.sniffCount - i) + 1
    case Following(attempt, i, _) => LaterAttempts(attempt, d.sniffCount) + 3 * (d.sniffCount - i)
    case Freeing(attempt, i, _, _) => LaterAttempts(attempt, d.sniffCount) + 3 * (d.sniffCount - i) - 1
  }

  /** At most as many steps until the callback rests. */
  function HandlerLeft(d: Device): nat {
    match d.handler
    case Waiting => 0
    case Filled(_) => 11
    case Made(_, _) => 10
    case Ended(_, _) => 9
    case Linked(_) => 8
    case Moved => 7
    case Asking => 6
    case YieldedTurn => 5
    case SawIn1 => if d.turn == 1 then 5 else 4
    case Reading => 3
    case Bumping(_) => 2
    case Releasing => 1
  }

  predicate Steady(d: Device) { d.sniffCount < 256 && (Uploading(d) ==> d.timer.attempt < 3) }

  lemma StepKeepsSteady(d: Device, e: Event)
    requires Counts(d) && Steady(d) && Step(d, e).Running?
    ensures Steady(Step(d, e).device)
  {
    hide Congruent;
    match e {
      case TimerMoves(ok) =>
      case HandlerMoves(packet, memory) => HandlerLeavesTimer(d, packet, memory);
    }
    hide CaptureStep, CountStep;
  }

  lemma LeftBounds(d: Device)
    requires Counts(d) && Ahead(d) && Steady(d)
    ensures 0 <= TimerLeft(d) <= 2311 && (TimerLeft(d) == 0 <==> d.timer.Idle?)
    ensures HandlerLeft(d) <= 11 && (HandlerLeft(d) == 0 <==> d.handler.Waiting?)
  {
    hide Congruent;
  }

  lemma SnapshotGoesOn(d: Device)
    requires Counts(d) && Steady(d) && !Uploading(d)
    ensures d.timer.Idle? ==> !SnapshotStep(d).timer.Idle?
    ensures !d.timer.Idle? ==> TimerLeft(SnapshotStep(d)) <= TimerLeft(d) - if TimerSpins(d) then 0 else 1
    ensures HandlerLeft(SnapshotStep(d)) <= HandlerLeft(d)
  {
    hide Congruent;
  }

  lemma UploadGoesOn(d: Device, ok: bool)
    requires Ahead(d) && Steady(d) && Uploading(d) && UploadStep(d, ok).Running?
    ensures TimerLeft(UploadStep(d, ok).device) < TimerLeft(d)
  {
  }

  lemma UploadLeavesHandler(d: Device, ok: bool)
    requires Uploading(d) && UploadStep(d, ok).Running?
    ensures UploadStep(d, ok).device.handler == d.handler && UploadStep(d, ok).device.turn == d.turn
  {
  }

  /** The timer task leaves its rest, and otherwise comes closer to it unless it spins. */
  lemma TimerGoesOn(d: Device, ok: bool)
    requires Counts(d) && Ahead(d) && Steady(d) && TimerStep(d, ok).Running?
    ensures var d' := TimerStep(d, ok).device;
      && (d.timer.Idle? ==> !d'.timer.Idle?)
      && (!d.timer.Idle? ==> TimerLeft(d') <= TimerLeft(d) - if TimerSpins(d) then 0 else 1)
      && HandlerLeft(d') <= HandlerLeft(d)
  {
    hide Counts, Ahead, Steady, TimerLeft, SnapshotStep, UploadStep;
    if Uploading(d) {
      UploadGoesOn(d, ok);
      UploadLeavesHandler(d, ok);
    } else {
      SnapshotGoesOn(d);
    }
  }

  lemma CaptureGoesOn(d: Device, packet: Packet, memory: Pointer)
    requires Capturing(d) && CaptureStep(d, packet, memory).Running?
    ensures var d' := CaptureStep(d, packet, memory).device;
      && (d.handler.Waiting? ==> !d'.handler.Waiting?)
      && (!d.handler.Waiting? ==> HandlerLeft(d') < HandlerLeft(d))
      && TimerLeft(d') == TimerLeft(d)
  {
  }

  lemma CountGoesOn(d: Device)
    requires !Capturing(d)
    ensures HandlerLeft(CountStep(d)) <= HandlerLeft(d) - if HandlerSpins(d) then 0 else 1
    ensures TimerLeft(CountStep(d)) <= TimerLeft(d)
  {
  }

  /** So does the callback. */
  lemma HandlerGoesOn(d: Device, packet: Packet, memory: Pointer)
    requires HandlerStep(d, packet, memory).Running?
    ensures var d' := HandlerStep(d, packet, memory).device;
      && (d.handler.Waiting? ==> !d'.handler.Waiting?)
      && (!d.handler.Waiting? ==> HandlerLeft(d') <= HandlerLeft(d) - if HandlerSpins(d) then 0 else 1)
      && TimerLeft(d') <= TimerLeft(d)
  {
    hide HandlerLeft, TimerLeft, CaptureStep, CountStep;
    if Capturing(d) { CaptureGoesOn(d, packet, memory); } else { CountGoesOn(d); }
    assert HandlerSpins(d) ==> !Capturing(d);
  }

  /** They never both spin; and a guard that has to be looked at again is held by the other, who
    * is on the way through the critical section. */
  lemma SpinsOnTheOther(d: Device)
    requires Exclusive(d)
    ensures !(TimerSpins(d) && HandlerSpins(d))
    ensures TimerSpins(d) && d.timer.GaveTurn? ==> 0 < HandlerLeft(d) <= 6
    ensures HandlerSpins(d) && d.handler.YieldedTurn? ==> !d.timer.Idle? && !Uploading(d)
  {
  }

  // ---------- whole runs ----------

  /** The steps of the timer task, without the spins. */
  function TimerWork(d: Device, events: seq<Event>): nat
    decreases |events|
  {
    if events == [] || Step(d, events[0]).Fault? then 0
    else
      (if events[0].TimerMoves? && !TimerSpins(d) then 1 else 0) + TimerWork(Step(d, events[0]).device, events[1..])
  }

  /** The timer task does not rest before the end. */
  predicate TimerBusy(d: Device, events: seq<Event>)
    decreases |events|
  {
    !d.timer.Idle? &&
    (events != [] && Step(d, events[0]).Running? ==> TimerBusy(Step(d, events[0]).device, events[1..]))
  }

  /** The steps of the callback, without the spins. */
  function HandlerWork(d: Device, events: seq<Event>): nat
    decreases |events|
  {
    if events == [] || Step(d, events[0]).Fault? then 0
    else
      (if events[0].HandlerMoves? && !HandlerSpins(d) then 1 else 0)
        + HandlerWork(Step(d, events[0]).device, events[1..])
  }

  /** The callback does not rest before the end. */
  predicate HandlerBusy(d: Device, events: seq<Event>)
    decreases |events|
  {
    !d.handler.Waiting? &&
    (events != [] && Step(d, events[0]).Running? ==> HandlerBusy(Step(d, events[0]).device, events[1..]))
  }

  /** For every run: the callback takes at most 11 steps that are not spins for a packet, after the
    * one that stores it. */
  lemma {:induction false} CaptureIsBounded(d: Device, events: seq<Event>)
    requires Inv(d) && Steady(d) && Regular(d, events) && HandlerBusy(d, events)
    ensures HandlerWork(d, events) <= HandlerLeft(d) <= 11
    decreases |events|
  {
    LeftBounds(d);
    if events != [] {
      StepKeepsInv(d, events[0]);
      StepKeepsSteady(d, events[0]);
      match events[0] {
        case TimerMoves(ok) => TimerGoesOn(d, ok);
        case HandlerMoves(packet, memory) => HandlerGoesOn(d, packet, memory);
      }
      hide Inv, Steady, TimerLeft, HandlerLeft, HandlerSpins, SnapshotStep, UploadStep, CountStep, CaptureStep;
      CaptureIsBounded(Step(d, events[0]).device, events[1..]);
    }
  }

  /** The packets the callback counts while the timer task is at its guard. */
  function Overtaking(d: Device, events: seq<Event>): nat
    decreases |events|
  {
    if events == [] || !TimerWants(d) || Step(d, events[0]).Fault? then 0
    else
      (if events[0].HandlerMoves? && d.handler.Bumping? then 1 else 0)
        + Overtaking(Step(d, events[0]).device, events[1..])
  }

  /** It can still get past the timer task. */
  predicate MayOvertake(d: Device) { d.turn == 2 && (HandlerWants(d) || d.handler.Reading? || d.handler.Bumping?) }

  lemma KeepsBehind(d: Device, e: Event)
    requires Exclusive(d) && TimerWants(d) && Step(d, e).Running?
    ensures var d' := Step(d, e).device;
      && Exclusive(d') && (TimerWants(d') && MayOvertake(d') ==> MayOvertake(d))
      && (e.HandlerMoves? && d.handler.Bumping? ==> MayOvertake(d) && !MayOvertake(d'))
  {
  }

  /** For every run: at its guard the timer task is overtaken at most once. */
  lemma {:induction false} OvertakenOnce(d: Device, events: seq<Event>)
    requires Exclusive(d)
    ensures Overtaking(d, events) <= if MayOvertake(d) then 1 else 0
    decreases |events|
  {
    if events != [] && TimerWants(d) && Step(d, events[0]).Running? {
      KeepsBehind(d, events[0]);
      hide Exclusive, Step, MayOvertake, TimerWants;
      OvertakenOnce(Step(d, events[0]).device, events[1..]);
    }
  }

  /** For every run: between two rests the timer task makes at most 2311 steps that are not spins. */
  lemma {:induction false} WorkIsBounded(d: Device, events: seq<Event>)
    requires Inv(d) && Steady(d) && Regular(d, events) && TimerBusy(d, events)
    ensures TimerWork(d, events) <= TimerLeft(d) <= 2311
    decreases |events|
  {
    LeftBounds(d);
    if events != [] {
      StepKeepsInv(d, events[0]);
      StepKeepsSteady(d, events[0]);
      match events[0] {
        case TimerMoves(ok) => TimerGoesOn(d, ok);
        case HandlerMoves(packet, memory) => HandlerGoesOn(d, packet, memory);
      }
      hide Inv, Steady, TimerLeft, HandlerLeft, TimerSpins, SnapshotStep, UploadStep, CountStep, CaptureStep;
      WorkIsBounded(Step(d, events[0]).device, events[1..]);
    }
  }
}
