/** Exactly which failed writes break the sniffer's list, and a run from the start that does. */
module Batches {
  import opened Sniffer

  /** The first packet of the batch is out, and the batch is not over. */
  predicate UnderWay(d: Device) {
    (d.timer.Writing? && d.timer.i > 0) || d.timer.Following? || d.timer.Freeing?
  }

  /** Then head is none of the nodes still to be sent: it is the node that went first, or, when
    * its memory is in use again, a node behind them. */
  predicate HeadPassed(d: Device) {
    UnderWay(d) ==> forall k :: 0 <= k < d.pending && k < |d.chain| ==> To(d.chain[k]) != d.head
  }

  ghost predicate Sound(d: Device) { Inv(d) && HeadPassed(d) }

  lemma WritePasses(d: Device)
    requires Sound(d) && d.timer.Writing? && d.timer.i < d.sniffCount
    ensures UploadStep(d, true).Running? && HeadPassed(UploadStep(d, true).device)
  {
    SenderIsBehind(d);
    var d' := UploadStep(d, true).device;
    forall k | 0 <= k < d'.pending && k < |d'.chain| ensures To(d'.chain[k]) != d'.head {
      assert d'.chain[k] == d.chain[k + 1] && d.chain[k + 1] != d.chain[0];
    }
  }

  lemma LinkPasses(d: Device, packet: Packet, memory: Pointer)
    requires Sound(d) && d.handler.Ended?
    ensures CaptureStep(d, packet, memory).Running? && HeadPassed(CaptureStep(d, packet, memory).device)
  {
    assert |Contents(d.heap, d.chain)| == |d.chain| - 1;
    hide Chained;
  }

  lemma UploadPasses(d: Device, ok: bool)
    requires Sound(d) && Uploading(d) && UploadStep(d, ok).Running? && !BreaksBatch(d, TimerMoves(ok))
    ensures HeadPassed(UploadStep(d, ok).device)
  {
    if d.timer.Writing? && d.timer.i < d.sniffCount && ok {
      WritePasses(d);
    } else {
      hide Inv;
    }
  }

  lemma CapturePasses(d: Device, packet: Packet, memory: Pointer)
    requires Sound(d) && Capturing(d) && CaptureStep(d, packet, memory).Running?
    ensures HeadPassed(CaptureStep(d, packet, memory).device)
  {
    if d.handler.Ended? {
      LinkPasses(d, packet, memory);
    } else {
      hide Inv;
    }
  }

  lemma LockPasses(d: Device)
    requires HeadPassed(d)
    ensures !Uploading(d) ==> HeadPassed(SnapshotStep(d))
    ensures !Capturing(d) ==> HeadPassed(CountStep(d))
  {
  }

  lemma StepKeepsSound(d: Device, e: Event)
    requires Sound(d) && Possible(d, e) && !BreaksBatch(d, e)
    ensures Step(d, e).Running? && Sound(Step(d, e).device)
  {
    StepKeepsInv(d, e);
    LockPasses(d);
    match e {
      case TimerMoves(ok) => if Uploading(d) { UploadPasses(d, ok); }
      case HandlerMoves(packet, memory) => if Capturing(d) { CapturePasses(d, packet, memory); }
    }
    hide Inv, HeadPassed, SnapshotStep, CountStep, UploadStep, CaptureStep;
  }

  /** A write that fails under way leaves head away from the front of the list. */
  lemma BreakLosesFront(d: Device)
    requires Sound(d) && BreaksBatch(d, TimerMoves(false))
    ensures UploadStep(d, false).Running? && !Listed(UploadStep(d, false).device)
  {
    SenderIsBehind(d);
    assert To(d.chain[0]) != d.head;
  }

  /** No possible step touches memory that is not allocated, and it keeps the list if and only if
    * it is not a write that fails in the middle of a batch. */
  lemma StepKeepsListIff(d: Device, e: Event)
    requires Sound(d) && Possible(d, e)
    ensures Step(d, e).Running? && (Listed(Step(d, e).device) <==> !BreaksBatch(d, e))
  {
    if BreaksBatch(d, e) {
      BreakLosesFront(d);
    } else {
      StepKeepsSound(d, e);
    }
    hide Listed, UploadStep;
  }

  // ---------- whole runs ----------

  /** Memory comes from malloc. */
  predicate Allowed(d: Device, events: seq<Event>)
    decreases |events|
  {
    events != [] ==>
      Possible(d, events[0]) && (Step(d, events[0]).Running? ==> Allowed(Step(d, events[0]).device, events[1..]))
  }

  /** The list is whole at the start and after every event. */
  ghost predicate ListedThroughout(d: Device, events: seq<Event>)
    decreases |events|
  {
    Listed(d) &&
    (events != [] ==> Step(d, events[0]).Running? && ListedThroughout(Step(d, events[0]).device, events[1..]))
  }

  lemma ListedFirst(d: Device, events: seq<Event>)
    ensures ListedThroughout(d, events) ==> Listed(d)
  {
  }

  lemma {:induction false} ListedIffRegularFrom(d: Device, events: seq<Event>)
    requires Sound(d) && Allowed(d, events)
    ensures ListedThroughout(d, events) <==> Regular(d, events)
    decreases |events|
  {
    if events != [] {
      StepKeepsListIff(d, events[0]);
      if !BreaksBatch(d, events[0]) {
        StepKeepsSound(d, events[0]);
        hide Step, Inv, HeadPassed, BreaksBatch;
        ListedIffRegularFrom(Step(d, events[0]).device, events[1..]);
      } else {
        ListedFirst(Step(d, events[0]).device, events[1..]);
      }
    }
  }

  /** For every run from the start: the list is whole all along if and only if no write fails in
    * the middle of a batch. */
  lemma ListedIffRegular(a: nat, garbage: Packet, events: seq<Event>)
    requires Allowed(Boot(a, garbage), events)
    ensures ListedThroughout(Boot(a, garbage), events) <==> Regular(Boot(a, garbage), events)
  {
    BootIsInv(a, garbage);
    ListedIffRegularFrom(Boot(a, garbage), events);
  }

  /** Mutual exclusion and the count hold in every run that gets so far, whatever fails. */
  lemma {:induction false} CountsWhateverFails(d: Device, events: seq<Event>)
    requires Exclusive(d) && Counts(d) && Run(d, events).Running?
    ensures Exclusive(Run(d, events).device) && Counts(Run(d, events).device)
    decreases |events|
  {
    if events != [] {
      match events[0] {
        case TimerMoves(ok) =>
          if Uploading(d) {
            UploadKeepsLocks(d, ok);
          } else {
            SnapshotKeepsExclusive(d);
            SnapshotKeepsCounts(d);
          }
        case HandlerMoves(packet, memory) =>
          if Capturing(d) {
            CaptureKeepsLocks(d, packet, memory);
          } else {
            CountKeepsExclusive(d);
            CountKeepsCounts(d);
          }
      }
      hide Exclusive, Counts, SnapshotStep, UploadStep, CaptureStep, CountStep;
      CountsWhateverFails(Step(d, events[0]).device, events[1..]);
    }
  }

  // ---------- a run that faults ----------

  const GO: Event := TimerMoves(true)

  /** A packet is captured and counted while the timer task rests. */
  function CaptureOne(packet: Packet, a: nat): seq<Event> {
    var e := HandlerMoves(packet, To(a));
    [e, e, e, e, e] + ([e, e, e, e, e] + [e])
  }

  predicate Resting(d: Device) { d.timer.Idle? && d.handler.Waiting? }

  lemma RunStep(d: Device, e: Event, d': Device, rest: seq<Event>)
    requires Step(d, e) == Running(d')
    ensures Run(d, [e] + rest) == Run(d', rest)
  {
    assert ([e] + rest)[1..] == rest;
  }

  lemma RunFive(d: Device, e: Event, d1: Device, d2: Device, d3: Device, d4: Device, d5: Device)
    requires Step(d, e) == Running(d1) && Step(d1, e) == Running(d2) && Step(d2, e) == Running(d3)
    requires Step(d3, e) == Running(d4) && Step(d4, e) == Running(d5)
    ensures Run(d, [e, e, e, e, e]) == Running(d5)
  {
    hide Step;
    assert [e, e, e, e, e] == [e] + ([e] + ([e] + ([e] + ([e] + []))));
    RunStep(d, e, d1, [e] + ([e] + ([e] + ([e] + []))));
    RunStep(d1, e, d2, [e] + ([e] + ([e] + [])));
    RunStep(d2, e, d3, [e] + ([e] + []));
    RunStep(d3, e, d4, [e] + []);
    RunStep(d4, e, d5, []);
  }

  lemma CapturedInList(d: Device, packet: Packet, a: nat) returns (d': Device)
    requires Inv(d) && Resting(d) && a !in d.heap
    ensures var e := HandlerMoves(packet, To(a)); Run(d, [e, e, e, e, e]) == Running(d')
    ensures Inv(d') && d'.timer == d.timer && d'.handler.Moved? && d'.count == d.count
    ensures d'.heap.Keys == d.heap.Keys + {a}
  {
    var e := HandlerMoves(packet, To(a));
    StepKeepsInv(d, e);
    var d1 := Step(d, e).device;
    StepKeepsInv(d1, e);
    var d2 := Step(d1, e).device;
    StepKeepsInv(d2, e);
    var d3 := Step(d2, e).device;
    StepKeepsInv(d3, e);
    var d4 := Step(d3, e).device;
    StepKeepsInv(d4, e);
    d' := Step(d4, e).device;
    hide Inv;
    RunFive(d, e, d1, d2, d3, d4, d');
  }

  lemma RestingIsQuiet(d: Device)
    requires Inv(d)
    ensures d.timer.Idle? ==> !d.in1 && !Uploading(d)
    ensures d.handler.Waiting? ==> !d.in2
    ensures d.handler.Moved? ==> !Capturing(d)
    ensures Resting(d) <==> d.timer.Idle? && d.handler.Waiting?
  {
  }

  /** A step of the callback while nobody else wants the lock. */
  lemma CountMoves(d: Device, e: Event) returns (d': Device)
    requires Inv(d) && !Capturing(d) && !d.in1 && e.HandlerMoves?
    ensures Step(d, e) == Running(d') && Inv(d')
    ensures d'.timer == d.timer && d'.heap == d.heap && !d'.in1 && (Capturing(d') <==> d.handler.Releasing?)
    ensures d'.count == if d.handler.Bumping? then (d.handler.seen + 1) % 256 else d.count
    ensures d.handler.Moved? ==> d'.handler.Asking?
    ensures d.handler.Asking? ==> d'.handler.YieldedTurn?
    ensures d.handler.YieldedTurn? ==> d'.handler.Reading?
    ensures d.handler.Reading? ==> d'.handler == Bumping(d.count)
    ensures d.handler.Bumping? ==> d'.handler.Releasing?
    ensures d.handler.Releasing? ==> d'.handler.Waiting?
  {
    StepKeepsInv(d, e);
    hide Inv;
    d' := CountStep(d);
  }

  lemma RunOne(d: Device, e: Event, d': Device)
    requires Step(d, e) == Running(d')
    ensures Run(d, [e]) == Running(d')
  {
    RunStep(d, e, d', []);
    assert [e] == [e] + [];
  }

  lemma CountedAlone(d: Device, e: Event) returns (d': Device)
    requires Inv(d) && d.timer.Idle? && d.handler.Moved? && e.HandlerMoves?
    ensures Run(d, [e, e, e, e, e] + [e]) == Running(d')
    ensures Inv(d') && Resting(d') && d'.count == (d.count + 1) % 256 && d'.heap == d.heap
  {
    hide *;
    RestingIsQuiet(d);
    var d1 := CountMoves(d, e);
    var d2 := CountMoves(d1, e);
    var d3 := CountMoves(d2, e);
    var d4 := CountMoves(d3, e);
    var d5 := CountMoves(d4, e);
    d' := CountMoves(d5, e);
    RestingIsQuiet(d');
    RunFive(d, e, d1, d2, d3, d4, d5);
    RunOne(d5, e, d');
    RunConcat(d, [e, e, e, e, e], [e]);
  }

  lemma CaptureFrom(d: Device, packet: Packet, a: nat) returns (d': Device)
    requires Inv(d) && Resting(d) && a !in d.heap
    ensures Run(d, CaptureOne(packet, a)) == Running(d')
    ensures Inv(d') && Resting(d') && d'.count == (d.count + 1) % 256 && d'.heap.Keys == d.heap.Keys + {a}
  {
    hide Inv, Run, Step;
    var e := HandlerMoves(packet, To(a));
    var mid := CapturedInList(d, packet, a);
    d' := CountedAlone(mid, e);
    RunConcat(d, [e, e, e, e, e], [e, e, e, e, e] + [e]);
  }

  /** A step of the timer task while nobody else wants the lock. */
  lemma SnapshotMoves(d: Device) returns (d': Device)
    requires Inv(d) && !Uploading(d) && !d.in2
    ensures Step(d, GO) == Running(d') && Inv(d') && !d'.in2 && (Uploading(d') <==> d.timer.Leaving?)
    ensures d.timer.Idle? || d.timer.Asked? || d.timer.GaveTurn? || d.timer.Loading? ==> d'.count == d.count
    ensures d'.sniffCount == if d.timer.Storing? then d.timer.seen else d.sniffCount
    ensures d.timer.Idle? ==> d'.timer.Asked?
    ensures d.timer.Asked? ==> d'.timer.GaveTurn?
    ensures d.timer.GaveTurn? ==> d'.timer.Loading?
    ensures d.timer.Loading? ==> d'.timer == Storing(d.count)
    ensures d.timer.Storing? ==> d'.timer.Clearing?
    ensures d.timer.Clearing? ==> d'.timer.Leaving?
    ensures d.timer.Leaving? ==> d'.timer == Dialling(0)
  {
    StepKeepsInv(d, GO);
    hide Inv;
    d' := SnapshotStep(d);
  }

  lemma DialMoves(d: Device) returns (d': Device)
    requires Inv(d) && d.timer == Dialling(0) && d.sniffCount > 0
    ensures Step(d, GO) == Running(d') && Inv(d')
    ensures d'.timer == Writing(0, 0, d'.head) && d'.sniffCount == d.sniffCount
  {
    StepKeepsInv(d, GO);
    hide Inv;
    d' := Step(d, GO).device;
  }

  lemma RunTwo(d: Device, e: Event, d1: Device, d2: Device)
    requires Step(d, e) == Running(d1) && Step(d1, e) == Running(d2)
    ensures Run(d, [e, e]) == Running(d2)
  {
    hide Step;
    RunOne(d1, e, d2);
    RunStep(d, e, d1, [e]);
    assert [e, e] == [e] + [e];
  }

  lemma SnapshotFrom(d: Device) returns (d': Device)
    requires Inv(d) && Resting(d) && d.count > 0
    ensures Run(d, [GO, GO, GO, GO, GO] + [GO, GO] + [GO]) == Running(d')
    ensures Inv(d') && d'.timer == Writing(0, 0, d'.head) && d'.sniffCount == d.count
  {
    hide *;
    RestingIsQuiet(d);
    var d1 := SnapshotMoves(d);
    var d2 := SnapshotMoves(d1);
    var d3 := SnapshotMoves(d2);
    var d4 := SnapshotMoves(d3);
    var d5 := SnapshotMoves(d4);
    var d6 := SnapshotMoves(d5);
    var d7 := SnapshotMoves(d6);
    d' := DialMoves(d7);
    RunFive(d, GO, d1, d2, d3, d4, d5);
    RunTwo(d5, GO, d6, d7);
    RunConcat(d, [GO, GO, GO, GO, GO], [GO, GO]);
    RunOne(d7, GO, d');
    RunConcat(d, [GO, GO, GO, GO, GO] + [GO, GO], [GO]);
  }

  /** Two captures, a snapshot, a connection, a packet sent, a write that fails, another attempt. */
  function FaultingRun(p: Packet, q: Packet): seq<Event> {
    CaptureOne(p, 1) + (CaptureOne(q, 2) + (([GO, GO, GO, GO, GO] + [GO, GO] + [GO]) + SECOND_WRITE_FAILS))
  }

  /** This run from the start reads a node that has been freed. */
  lemma FailedWriteFaults(garbage: Packet, p: Packet, q: Packet)
    ensures Run(Boot(0, garbage), FaultingRun(p, q)) == Fault
  {
    BootIsInv(0, garbage);
    var d := Boot(0, garbage);
    hide Inv, Run, Step, CaptureOne;
    var d1 := CaptureFrom(d, p, 1);
    var d2 := CaptureFrom(d1, q, 2);
    var d3 := SnapshotFrom(d2);
    MidBatchFailureFaults(d3);
    RunConcat(d2, [GO, GO, GO, GO, GO] + [GO, GO] + [GO], SECOND_WRITE_FAILS);
    RunConcat(d1, CaptureOne(q, 2), ([GO, GO, GO, GO, GO] + [GO, GO] + [GO]) + SECOND_WRITE_FAILS);
    RunConcat(d, CaptureOne(p, 1),
      CaptureOne(q, 2) + (([GO, GO, GO, GO, GO] + [GO, GO] + [GO]) + SECOND_WRITE_FAILS));
  }
}
