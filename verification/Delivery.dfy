/** What a run of the sniffer delivers, told by an observer who watches the radio, malloc and
  * the network calls: every packet that found room is sent or waits in the list, an upload sends
  * what its snapshot took, and it gives up only after three failed attempts. */
module Delivery {
  import opened Sniffer

  /** The packets that malloc found room for, the packet last heard, the packets written to the
    * network, how many of those had been written when the last snapshot was taken, and the
    * failed network calls since. */
  datatype Log = Log(stored: seq<Packet>, offered: Packet, transmitted: seq<Packet>, before: nat, failures: nat)

  /** What the observer sees of one step. */
  function Note(d: Device, log: Log, e: Event): Log {
    match e
    case TimerMoves(ok) =>
      if d.timer.Storing? then log.(before := |log.transmitted|, failures := 0)
      else if Calls(d) && !ok then log.(failures := log.failures + 1)
      else if Calls(d) && d.timer.Writing? && Allocated(d, d.timer.ptr) then
        log.(transmitted := log.transmitted + [d.heap[d.timer.ptr.address].data])
      else log
    case HandlerMoves(packet, memory) =>
      if d.handler.Waiting? then log.(offered := packet)
      else if d.handler.Filled? && memory.To? then log.(stored := log.stored + [log.offered])
      else log
  }

  /** What the observer has seen at the end of a run. */
  function Logged(d: Device, log: Log, events: seq<Event>): Log
    decreases |events|
  {
    if events == [] || Step(d, events[0]).Fault? then log
    else Logged(Step(d, events[0]).device, Note(d, log, events[0]), events[1..])
  }

  /** No snapshot is waiting to be sent. */
  predicate Between(d: Device) { !Uploading(d) && !d.timer.Clearing? && !d.timer.Leaving? }

  /** The packet that has room but is not linked yet. */
  function Underway(handler: Handler): seq<Packet> {
    if handler.Made? || handler.Ended? then [handler.b] else []
  }

  /** The capture side of the log. */
  predicate Heard(d: Device, log: Log) {
    log.stored == d.captured + Underway(d.handler) && (d.handler.Filled? ==> log.offered == d.handler.b)
  }

  /** The upload side: what was sent and what is pending make up the last snapshot; between two
    * uploads either nothing is pending or three attempts have failed and nothing was sent. */
  predicate Tallied(d: Device, log: Log) {
    && log.transmitted == d.sent
    && (d.snapshots == [] ==>
         Between(d) && d.pending == 0 == d.sniffCount && log.failures == 0 && log.before == |d.sent|)
    && (d.snapshots != [] ==> d.sniffCount == d.snapshots[|d.snapshots| - 1])
    && |d.sent| + d.pending == log.before + d.sniffCount
    && (Between(d) ==> (log.failures < 3 && d.pending == 0) || (log.failures == 3 && d.pending == d.sniffCount))
    && (d.timer.Clearing? || d.timer.Leaving? ==> log.failures == 0)
    && (Uploading(d) ==> d.timer.attempt == log.failures < 3)
  }

  lemma SnapshotTallies(d: Device, log: Log, ok: bool)
    requires Inv(d) && Tallied(d, log) && !Uploading(d)
    ensures Tallied(SnapshotStep(d), Note(d, log, TimerMoves(ok)))
  {
    hide Exclusive, Counts, Listed;
  }

  lemma UploadTallies(d: Device, log: Log, ok: bool)
    requires Inv(d) && Tallied(d, log) && Uploading(d) && !BreaksBatch(d, TimerMoves(ok)) && UploadStep(d, ok).Running?
    ensures Tallied(UploadStep(d, ok).device, Note(d, log, TimerMoves(ok)))
  {
    hide Exclusive, Counts, Listed;
  }

  lemma HandlerLeavesTimer(d: Device, packet: Packet, memory: Pointer)
    requires HandlerStep(d, packet, memory).Running?
    ensures var d' := HandlerStep(d, packet, memory).device;
      && d'.timer == d.timer && d'.sniffCount == d.sniffCount && d'.pending == d.pending
      && d'.snapshots == d.snapshots && d'.sent == d.sent
  {
  }

  lemma SameTally(d: Device, log: Log, d': Device, log': Log)
    requires Tallied(d, log)
    requires d'.timer == d.timer && d'.sniffCount == d.sniffCount && d'.pending == d.pending
    requires d'.snapshots == d.snapshots && d'.sent == d.sent
    requires log'.transmitted == log.transmitted && log'.before == log.before && log'.failures == log.failures
    ensures Tallied(d', log')
  {
  }

  lemma HandlerTallies(d: Device, log: Log, packet: Packet, memory: Pointer)
    requires Tallied(d, log) && HandlerStep(d, packet, memory).Running?
    ensures Tallied(HandlerStep(d, packet, memory).device, Note(d, log, HandlerMoves(packet, memory)))
  {
    hide HandlerStep, Tallied;
    HandlerLeavesTimer(d, packet, memory);
    SameTally(d, log, HandlerStep(d, packet, memory).device, Note(d, log, HandlerMoves(packet, memory)));
  }

  lemma HandlerHears(d: Device, log: Log, packet: Packet, memory: Pointer)
    requires Heard(d, log) && HandlerStep(d, packet, memory).Running?
    ensures Heard(HandlerStep(d, packet, memory).device, Note(d, log, HandlerMoves(packet, memory)))
  {
  }

  lemma TimerHears(d: Device, log: Log, ok: bool)
    requires Heard(d, log) && TimerStep(d, ok).Running?
    ensures Heard(TimerStep(d, ok).device, Note(d, log, TimerMoves(ok)))
  {
  }

  lemma StepTallies(d: Device, log: Log, e: Event)
    requires Inv(d) && Tallied(d, log) && Heard(d, log) && Possible(d, e) && !BreaksBatch(d, e)
    ensures Step(d, e).Running? && Inv(Step(d, e).device)
    ensures Tallied(Step(d, e).device, Note(d, log, e)) && Heard(Step(d, e).device, Note(d, log, e))
  {
    StepKeepsInv(d, e);
    match e {
      case TimerMoves(ok) =>
        TimerHears(d, log, ok);
        if Uploading(d) { UploadTallies(d, log, ok); } else { SnapshotTallies(d, log, ok); }
      case HandlerMoves(packet, memory) =>
        HandlerHears(d, log, packet, memory);
        HandlerTallies(d, log, packet, memory);
    }
    hide Inv, Tallied, Heard, Note, SnapshotStep, UploadStep, CaptureStep, CountStep;
  }

  // ---------- whole runs ----------

  function Nothing(garbage: Packet): Log { Log([], garbage, [], 0, 0) }

  lemma {:induction false} RunTallies(d: Device, log: Log, events: seq<Event>)
    requires Inv(d) && Tallied(d, log) && Heard(d, log) && Regular(d, events)
    ensures Run(d, events).Running? && Inv(Run(d, events).device)
    ensures Tallied(Run(d, events).device, Logged(d, log, events))
    ensures Heard(Run(d, events).device, Logged(d, log, events))
    decreases |events|
  {
    hide Inv, Tallied, Heard, Note, Step;
    if events != [] {
      StepTallies(d, log, events[0]);
      RunTallies(Step(d, events[0]).device, Note(d, log, events[0]), events[1..]);
    }
  }

  lemma {:induction false} RunThenStep(d: Device, log: Log, events: seq<Event>, e: Event)
    requires Regular(d, events + [e]) && Inv(d)
    ensures Regular(d, events) && Run(d, events).Running?
    ensures var c := Run(d, events).device; Possible(c, e) && !BreaksBatch(c, e) && Run(d, events + [e]) == Step(c, e)
    ensures Logged(d, log, events + [e]) == Note(Run(d, events).device, Logged(d, log, events), e)
    decreases |events|
  {
    hide Inv, Note, BreaksBatch, Possible;
    var all := events + [e];
    StepKeepsInv(d, all[0]);
    var next := Step(d, all[0]).device;
    hide Step;
    if events == [] {
      assert all[1..] == [] && Run(next, []) == Running(next);
      assert Logged(next, Note(d, log, e), []) == Note(d, log, e);
    } else {
      assert all[1..] == events[1..] + [e];
      RunThenStep(next, Note(d, log, events[0]), events[1..], e);
    }
  }

  lemma BootIsTallied(a: nat, garbage: Packet)
    ensures Tallied(Boot(a, garbage), Nothing(garbage)) && Heard(Boot(a, garbage), Nothing(garbage))
  {
  }

  /** For every run: what was written to the network, then the list, then the packet on its way
    * to it, are the packets that were heard and found room, in order. */
  lemma NothingLost(a: nat, garbage: Packet, events: seq<Event>)
    requires Regular(Boot(a, garbage), events)
    ensures Run(Boot(a, garbage), events).Running?
    ensures var d := Run(Boot(a, garbage), events).device;
      var log := Logged(Boot(a, garbage), Nothing(garbage), events);
      && (forall k :: 0 <= k < |d.chain| ==> d.chain[k] in d.heap)
      && log.stored == log.transmitted + Contents(d.heap, d.chain) + Underway(d.handler)
  {
    BootIsInv(a, garbage);
    BootIsTallied(a, garbage);
    RunTallies(Boot(a, garbage), Nothing(garbage), events);
    hide Run, Logged, Boot, Nothing;
  }

  lemma EndOfUpload(d: Device, log: Log, e: Event)
    requires Tallied(d, log) && Uploading(d) && Step(d, e).Running? && Step(d, e).device.timer.Idle?
    requires Tallied(Step(d, e).device, Note(d, log, e))
    ensures e.TimerMoves? && Step(d, e).device.snapshots != [] && (e.ok ==> Note(d, log, e).failures < 3)
  {
  }

  /** For every run and every step that ends an upload: if fewer than three network calls of it
    * failed, everything the last snapshot took has been written since, so also if this step did
    * not fail; if three did, this one is the third and nothing of it was written.  Only then is
    * anything pending while the timer task rests. */
  lemma UploadEnds(a: nat, garbage: Packet, events: seq<Event>, e: Event)
    requires Regular(Boot(a, garbage), events + [e])
    ensures Run(Boot(a, garbage), events).Running? && Run(Boot(a, garbage), events + [e]).Running?
    ensures var d, d' := Run(Boot(a, garbage), events).device, Run(Boot(a, garbage), events + [e]).device;
      var log := Logged(Boot(a, garbage), Nothing(garbage), events + [e]);
      Uploading(d) && d'.timer.Idle? ==>
        && e.TimerMoves? && d'.snapshots != [] && log.transmitted == d'.sent && log.failures <= 3
        && (e.ok ==> log.failures < 3)
        && (log.failures < 3 ==> d'.pending == 0 && |d'.sent| == log.before + d'.snapshots[|d'.snapshots| - 1])
        && (log.failures == 3 ==> |d'.sent| == log.before)
        && (d'.pending > 0 ==> log.failures == 3)
  {
    BootIsInv(a, garbage);
    BootIsTallied(a, garbage);
    var boot, log := Boot(a, garbage), Nothing(garbage);
    RunTallies(boot, log, events + [e]);
    RunThenStep(boot, log, events, e);
    RunTallies(boot, log, events);
    hide Run, Logged, Regular, Boot, Nothing, Inv, Step, Note;
    var d := Run(boot, events).device;
    if Uploading(d) && Step(d, e).device.timer.Idle? {
      EndOfUpload(d, Logged(boot, log, events), e);
    }
  }

  /** While an upload has not ended, fewer than three of its calls have failed; so a failed call
    * that is not the third is followed by another attempt. */
  lemma KeepsTrying(a: nat, garbage: Packet, events: seq<Event>, e: Event)
    requires Regular(Boot(a, garbage), events + [e])
    ensures Run(Boot(a, garbage), events).Running? && Run(Boot(a, garbage), events + [e]).Running?
    ensures var d, d' := Run(Boot(a, garbage), events).device, Run(Boot(a, garbage), events + [e]).device;
      var log := Logged(Boot(a, garbage), Nothing(garbage), events + [e]);
      Calls(d) && e == TimerMoves(false) ==>
        if log.failures < 3 then d'.timer.Dialling? && d'.pending == d'.sniffCount else d'.timer.Idle?
  {
    BootIsInv(a, garbage);
    BootIsTallied(a, garbage);
    var boot, log := Boot(a, garbage), Nothing(garbage);
    RunTallies(boot, log, events + [e]);
    RunThenStep(boot, log, events, e);
    RunTallies(boot, log, events);
    var d := Run(boot, events).device;
    hide Run, Logged, Regular, Boot, Nothing, Exclusive, Counts, Listed;
    if Calls(d) && e == TimerMoves(false) {
      assert Step(d, e) == UploadStep(d, false);
    }
  }

  // ---------- memory ----------

  /** Every node in use is in the list, about to be let go by the sender, or just made by the callback. */
  ghost predicate NoLeak(d: Device) {
    forall a :: a in d.heap ==>
      a in d.chain || a in Leftover(d.timer) || ((d.handler.Made? || d.handler.Ended?) && a == d.handler.temp)
  }

  lemma SnapshotLeaksNothing(d: Device)
    requires NoLeak(d) && !Uploading(d)
    ensures NoLeak(SnapshotStep(d))
  {
  }

  lemma UploadLeaksNothing(d: Device, ok: bool)
    requires Listed(d) && Ahead(d) && NoLeak(d) && Uploading(d) && UploadStep(d, ok).Running?
    ensures NoLeak(UploadStep(d, ok).device)
  {
    hide Chained, Contents;
    assert d.chain == [d.chain[0]] + d.chain[1..];
  }

  lemma HandlerLeaksNothing(d: Device, packet: Packet, memory: Pointer)
    requires NoLeak(d) && HandlerStep(d, packet, memory).Running?
    requires Listed(d)
    ensures NoLeak(HandlerStep(d, packet, memory).device)
  {
    hide Chained, Contents, AtFront;
  }

  lemma {:induction false} RunLeaksNothing(d: Device, events: seq<Event>)
    requires Inv(d) && NoLeak(d) && Regular(d, events)
    ensures Run(d, events).Running? && NoLeak(Run(d, events).device)
    decreases |events|
  {
    if events != [] {
      StepKeepsInv(d, events[0]);
      match events[0] {
        case TimerMoves(ok) => if Uploading(d) { UploadLeaksNothing(d, ok); } else { SnapshotLeaksNothing(d); }
        case HandlerMoves(packet, memory) => HandlerLeaksNothing(d, packet, memory);
      }
      hide Inv, NoLeak, SnapshotStep, UploadStep, CaptureStep, CountStep;
      RunLeaksNothing(Step(d, events[0]).device, events[1..]);
    }
  }

  /** For every run: no node is lost, so the nodes in use are at most two more than those of the list. */
  lemma NothingLeaks(a: nat, garbage: Packet, events: seq<Event>)
    requires Regular(Boot(a, garbage), events)
    ensures Run(Boot(a, garbage), events).Running? && NoLeak(Run(Boot(a, garbage), events).device)
  {
    BootIsInv(a, garbage);
    RunLeaksNothing(Boot(a, garbage), events);
  }
}
