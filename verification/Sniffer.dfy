/** The ESP32 sniffer: a timer task and a packet callback that share a counter and a
  * linked list.  Every constructor of the two program counters is one atomic step of
  * the C code, so a run is any interleaving of single loads and stores. */
module Sniffer {
  import opened Sequences

  datatype Pointer = Null | To(address: nat)

  datatype Packet = Packet(timestamp: nat, channel: nat, seqCtl: nat, rssi: int,
                           addr: seq<nat>, ssid: seq<nat>, crc: seq<nat>, hash: nat)

  datatype Cell = Cell(data: Packet, next: Pointer)

  const ATTEMPTS := 3

  /** Where the timer task stands. */
  datatype Timer =
    | Idle
    | Asked                                   // in1 is set, the turn not yet given
    | GaveTurn                                // about to look at in2
    | SawIn2                                  // saw in2 set, about to look at the turn
    | Loading                                 // critical: about to load count
    | Storing(seen: nat)                      // critical: about to store sniff_count
    | Clearing                                // critical: about to clear count
    | Leaving                                 // critical: about to clear in1
    | Dialling(attempt: nat)                  // about to connect
    | Writing(attempt: nat, i: nat, ptr: Pointer)
    | Following(attempt: nat, i: nat, ptr: Pointer)
    | Freeing(attempt: nat, i: nat, ptr: Pointer, aux: Pointer)

  /** Where the packet callback stands. */
  datatype Handler =
    | Waiting
    | Filled(b: Packet)                       // the tail node holds the packet
    | Made(b: Packet, temp: nat)              // a new node is allocated
    | Ended(b: Packet, temp: nat)             // its next is NULL
    | Linked(temp: nat)                       // the tail points to it
    | Moved                                   // it is the tail
    | Asking                                  // in2 is set
    | YieldedTurn                             // about to look at in1
    | SawIn1                                  // saw in1 set, about to look at the turn
    | Reading                                 // critical: about to load count
    | Bumping(seen: nat)                      // critical: about to store count
    | Releasing                               // critical: about to clear in2

  /** The globals, the allocated nodes and the two program counters; the last six fields
    * record what happened and are read by no step. */
  datatype Device = Device(
    in1: bool, in2: bool, turn: nat, count: nat, sniffCount: nat,
    head: Pointer, curr: Pointer, heap: map<nat, Cell>,
    timer: Timer, handler: Handler,
    increments: nat, snapshots: seq<nat>, pending: int,
    chain: seq<nat>, captured: seq<Packet>, sent: seq<Packet>)

  datatype Outcome = Running(device: Device) | Fault

  predicate Allocated(d: Device, p: Pointer) { p.To? && p.address in d.heap }

  /** The next step of the timer task is a network call. */
  predicate Calls(d: Device) { d.timer.Dialling? || (d.timer.Writing? && d.timer.i < d.sniffCount) }

  function Retry(attempt: nat): Timer {
    if attempt + 1 < ATTEMPTS then Dialling(attempt + 1) else Idle
  }

  predicate Uploading(d: Device) {
    d.timer.Dialling? || d.timer.Writing? || d.timer.Following? || d.timer.Freeing?
  }

  /** The timer task takes and clears the counter. */
  function SnapshotStep(d: Device): Device
    requires !Uploading(d)
  {
    match d.timer
    case Idle => d.(in1 := true, timer := Asked)
    case Asked => d.(turn := 2, timer := GaveTurn)
    case GaveTurn => d.(timer := if d.in2 then SawIn2 else Loading)
    case SawIn2 => d.(timer := if d.turn == 2 then GaveTurn else Loading)
    case Loading => d.(timer := Storing(d.count))
    case Storing(seen) =>
      d.(sniffCount := seen, pending := seen, snapshots := d.snapshots + [seen], timer := Clearing)
    case Clearing => d.(count := 0, timer := Leaving)
    case Leaving => d.(in1 := false, timer := Dialling(0))
  }

  /** The timer task sends the packets of the last snapshot and frees their nodes. */
  function UploadStep(d: Device, ok: bool): Outcome
    requires Uploading(d)
  {
    match d.timer
    case Dialling(attempt) =>
      if !ok then Running(d.(timer := Retry(attempt)))
      else if d.sniffCount == 0 then Running(d.(timer := Idle))
      else Running(d.(timer := Writing(attempt, 0, d.head)))
    case Writing(attempt, i, ptr) =>
      if i >= d.sniffCount then Running(d.(head := ptr, timer := Idle))
      else if !Allocated(d, ptr) then Fault
      else if !ok then Running(d.(timer := Retry(attempt)))
      else Running(d.(sent := d.sent + [d.heap[ptr.address].data], pending := d.pending - 1,
                      chain := if d.chain == [] then [] else d.chain[1..],
                      timer := Following(attempt, i, ptr)))
    case Following(attempt, i, ptr) =>
      if !Allocated(d, ptr) then Fault
      else Running(d.(timer := Freeing(attempt, i, ptr, d.heap[ptr.address].next)))
    case Freeing(attempt, i, ptr, aux) =>
      if !Allocated(d, ptr) then Fault
      else Running(d.(heap := d.heap - {ptr.address}, timer := Writing(attempt, i + 1, aux)))
  }

  /** One step of the timer task; `ok` says whether the network call of the step works.
    * Touching memory that is not allocated is a Fault. */
  function TimerStep(d: Device, ok: bool): Outcome {
    if Uploading(d) then UploadStep(d, ok) else Running(SnapshotStep(d))
  }

  predicate Capturing(d: Device) {
    d.handler.Waiting? || d.handler.Filled? || d.handler.Made? || d.handler.Ended? || d.handler.Linked?
  }

  /** The callback fills the tail node and appends an empty one; `packet` is what the radio
    * delivers and `memory` what malloc returns, when the step uses them. */
  function CaptureStep(d: Device, packet: Packet, memory: Pointer): Outcome
    requires Capturing(d)
  {
    match d.handler
    case Waiting =>
      if !Allocated(d, d.curr) then Fault
      else Running(d.(heap := d.heap[d.curr.address := d.heap[d.curr.address].(data := packet)],
          handler := Filled(packet)))
    case Filled(b) =>
      if memory.Null? then Running(d.(handler := Waiting))
      else Running(d.(heap := d.heap[memory.address := Cell(packet, memory)], handler := Made(b, memory.address)))
    case Made(b, temp) =>
      if temp !in d.heap then Fault
      else Running(d.(heap := d.heap[temp := d.heap[temp].(next := Null)], handler := Ended(b, temp)))
    case Ended(b, temp) =>
      if !Allocated(d, d.curr) then Fault
      else Running(d.(heap := d.heap[d.curr.address := d.heap[d.curr.address].(next := To(temp))],
                      chain := d.chain + [temp], captured := d.captured + [b],
                      handler := Linked(temp)))
    case Linked(temp) => Running(d.(curr := To(temp), handler := Moved))
  }

  /** The callback counts the packet. */
  function CountStep(d: Device): Device
    requires !Capturing(d)
  {
    match d.handler
    case Moved => d.(in2 := true, handler := Asking)
    case Asking => d.(turn := 1, handler := YieldedTurn)
    case YieldedTurn => d.(handler := if d.in1 then SawIn1 else Reading)
    case SawIn1 => d.(handler := if d.turn == 1 then YieldedTurn else Reading)
    case Reading => d.(handler := Bumping(d.count))
    case Bumping(seen) => d.(count := (seen + 1) % 256, increments := d.increments + 1, handler := Releasing)
    case Releasing => d.(in2 := false, handler := Waiting)
  }

  function HandlerStep(d: Device, packet: Packet, memory: Pointer): Outcome {
    if Capturing(d) then CaptureStep(d, packet, memory) else Running(CountStep(d))
  }

  /** What the scheduler and the outside world choose for one step. */
  datatype Event = TimerMoves(ok: bool) | HandlerMoves(packet: Packet, memory: Pointer)

  function Step(d: Device, e: Event): Outcome {
    match e
    case TimerMoves(ok) => TimerStep(d, ok)
    case HandlerMoves(packet, memory) => HandlerStep(d, packet, memory)
  }

  /** malloc returns memory that is not in use. */
  predicate Possible(d: Device, e: Event) {
    e.HandlerMoves? && d.handler.Filled? && e.memory.To? ==> e.memory.address !in d.heap
  }

  /** A write fails after part of a batch has gone out. */
  predicate BreaksBatch(d: Device, e: Event) {
    e.TimerMoves? && !e.ok && d.timer.Writing? && 0 < d.timer.i < d.sniffCount
  }

  // ---------- the invariant ----------

  predicate TimerInside(d: Device) {
    d.timer.Loading? || d.timer.Storing? || d.timer.Clearing? || d.timer.Leaving?
  }

  predicate TimerWants(d: Device) { d.timer.GaveTurn? || d.timer.SawIn2? }

  predicate HandlerInside(d: Device) { d.handler.Reading? || d.handler.Bumping? || d.handler.Releasing? }

  predicate HandlerWants(d: Device) { d.handler.YieldedTurn? || d.handler.SawIn1? }

  /** Peterson's argument. */
  predicate Exclusive(d: Device) {
    && d.in1 == (d.timer.Asked? || TimerWants(d) || TimerInside(d))
    && d.in2 == (d.handler.Asking? || HandlerWants(d) || HandlerInside(d))
    && (d.turn == 1 || d.turn == 2)
    && !(TimerInside(d) && HandlerInside(d))
    && (TimerInside(d) && HandlerWants(d) ==> d.turn == 1)
    && (HandlerInside(d) && TimerWants(d) ==> d.turn == 2)
  }

  /** What count still stands for: between storing sniff_count and clearing count it has
    * been taken already. */
  function Uncounted(d: Device): nat { if d.timer.Clearing? then 0 else d.count }

  predicate Congruent(a: nat, b: nat) { a % 256 == b % 256 }

  lemma CongruentSuccessor(a: nat, b: nat, c: nat)
    requires Congruent(a, b + c)
    ensures Congruent(a + 1, b + (c + 1) % 256)
  {
  }

  predicate Counts(d: Device) {
    && d.count < 256
    && Congruent(d.increments, Total(d.snapshots) + Uncounted(d))
    && (d.timer.Storing? ==> d.timer.seen == d.count)
    && (d.timer.Clearing? ==> d.sniffCount == d.count)
    && (d.handler.Bumping? ==> d.handler.seen == d.count)
  }

  /** The nodes of `chain` are linked in order and the last is the end of the list. */
  ghost predicate Chained(heap: map<nat, Cell>, chain: seq<nat>) {
    && (forall k :: 0 <= k < |chain| ==> chain[k] in heap)
    && (forall k :: 0 <= k < |chain| - 1 ==> heap[chain[k]].next == To(chain[k + 1]))
    && (chain != [] ==> heap[chain[|chain| - 1]].next == Null)
    && Distinct(chain)
  }

  /** The data of every node but the last. */
  function Contents(heap: map<nat, Cell>, chain: seq<nat>): (r: seq<Packet>)
    requires forall k :: 0 <= k < |chain| ==> chain[k] in heap
  {
    seq(if chain == [] then 0 else |chain| - 1, k requires 0 <= k < |chain| => heap[chain[k]].data)
  }

  /** The node the sender is about to let go, which is no longer part of the list. */
  function Leftover(timer: Timer): set<nat> {
    if (timer.Following? || timer.Freeing?) && timer.ptr.To? then {timer.ptr.address} else {}
  }

  /** The sender works at the front of the list. */
  predicate AtFront(timer: Timer, head: Pointer, heap: map<nat, Cell>, chain: seq<nat>)
    requires chain != []
  {
    match timer
    case Writing(_, i, ptr) => ptr == To(chain[0]) && (i == 0 ==> head == ptr)
    case Following(_, _, ptr) => ptr.To? && ptr.address in heap && heap[ptr.address].next == To(chain[0])
    case Freeing(_, _, ptr, aux) => ptr.To? && ptr.address in heap && aux == To(chain[0])
    case _ => head == To(chain[0])
  }

  predicate Holds(heap: map<nat, Cell>, a: nat, b: Packet) { a in heap && heap[a].data == b }

  /** The callback works at the end of the list. */
  predicate AtEnd(handler: Handler, curr: Pointer, heap: map<nat, Cell>, chain: seq<nat>)
    requires chain != []
  {
    var n := |chain|;
    match handler
    case Filled(b) => curr == To(chain[n - 1]) && Holds(heap, chain[n - 1], b)
    case Made(b, temp) => curr == To(chain[n - 1]) && Holds(heap, chain[n - 1], b) && temp in heap
    case Ended(b, temp) =>
      curr == To(chain[n - 1]) && Holds(heap, chain[n - 1], b) && temp in heap && heap[temp].next == Null
    case Linked(temp) => n >= 2 && temp == chain[n - 1] && curr == To(chain[n - 2])
    case _ => curr == To(chain[n - 1])
  }

  /** Nodes in use outside the list are the sender's old one and the callback's new one. */
  predicate Apart(timer: Timer, handler: Handler, chain: seq<nat>) {
    && (forall a :: a in Leftover(timer) ==> a !in chain)
    && (handler.Made? || handler.Ended? ==> handler.temp !in chain && handler.temp !in Leftover(timer))
  }

  ghost predicate Listed(d: Device) {
    && d.chain != []
    && Chained(d.heap, d.chain)
    && AtFront(d.timer, d.head, d.heap, d.chain)
    && AtEnd(d.handler, d.curr, d.heap, d.chain)
    && Apart(d.timer, d.handler, d.chain)
    && d.sent + Contents(d.heap, d.chain) == d.captured
  }

  /** Packets linked but not counted yet. */
  function InFlight(d: Device): nat {
    if d.handler.Linked? || d.handler.Moved? || d.handler.Asking? || HandlerWants(d)
      || d.handler.Reading? || d.handler.Bumping? then 1 else 0
  }

  /** The list holds at least the unsent part of the last snapshot and what count counts. */
  predicate Ahead(d: Device) {
    && |d.captured| == d.increments + InFlight(d)
    && 0 <= d.pending <= d.sniffCount
    && d.increments - |d.sent| >= d.pending + Uncounted(d)
    && (d.timer.Clearing? || d.timer.Leaving? || d.timer.Dialling? ==> d.pending == d.sniffCount)
    && (d.timer.Writing? ==> d.timer.i <= d.sniffCount && d.pending == d.sniffCount - d.timer.i)
    && (d.timer.Following? || d.timer.Freeing? ==>
      d.timer.i < d.sniffCount && d.pending == d.sniffCount - d.timer.i - 1)
  }

  ghost predicate Inv(d: Device) { Exclusive(d) && Counts(d) && Listed(d) && Ahead(d) }

  // ---------- every step keeps it ----------

  lemma SnapshotKeepsExclusive(d: Device)
    requires Exclusive(d) && !Uploading(d)
    ensures Exclusive(SnapshotStep(d))
  {
  }

  lemma CountKeepsExclusive(d: Device)
    requires Exclusive(d) && !Capturing(d)
    ensures Exclusive(CountStep(d))
  {
  }

  lemma SnapshotKeepsCounts(d: Device)
    requires Exclusive(d) && Counts(d) && !Uploading(d)
    ensures Counts(SnapshotStep(d))
  {
    hide Congruent;
    if d.timer.Storing? { TotalSnoc(d.snapshots, d.timer.seen); }
  }

  lemma CountKeepsCounts(d: Device)
    requires Exclusive(d) && Counts(d) && !Capturing(d)
    ensures Counts(CountStep(d))
  {
    hide Total, Congruent;
    if d.handler.Bumping? { CongruentSuccessor(d.increments, Total(d.snapshots), d.count); }
  }

  lemma SnapshotKeepsList(d: Device)
    requires Listed(d) && Ahead(d) && Counts(d) && !Uploading(d)
    ensures Listed(SnapshotStep(d)) && Ahead(SnapshotStep(d))
  {
    hide Chained, Total, Contents, AtEnd, Congruent;
  }

  predicate Appending(handler: Handler) {
    handler.Filled? || handler.Made? || handler.Ended? || handler.Linked?
  }

  /** Where the callback stands matters to the list only while it appends. */
  lemma SameList(d: Device, d': Device)
    requires Listed(d) && !Appending(d.handler) && !Appending(d'.handler)
    requires d' == d.(handler := d'.handler, count := d'.count, increments := d'.increments, in2 := d'.in2,
                      turn := d'.turn)
    ensures Listed(d')
  {
    hide Chained, Contents, AtFront, Leftover;
  }

  lemma CountKeepsAhead(d: Device)
    requires Exclusive(d) && Ahead(d) && Counts(d) && !Capturing(d)
    ensures Ahead(CountStep(d))
  {
    hide Total, Congruent;
  }

  lemma CountKeepsList(d: Device)
    requires Exclusive(d) && Listed(d) && Ahead(d) && Counts(d) && !Capturing(d)
    ensures Listed(CountStep(d)) && Ahead(CountStep(d))
  {
    CountKeepsAhead(d);
    SameList(d, CountStep(d));
  }

  /** The sender and the callback are never in one node. */
  lemma SenderIsBehind(d: Device)
    requires Listed(d) && Ahead(d) && d.timer.Writing? && d.timer.i < d.sniffCount
    ensures |d.chain| >= 2 + InFlight(d)
    ensures d.timer.ptr != d.curr
  {
    assert |Contents(d.heap, d.chain)| == |d.chain| - 1;
  }

  lemma UploadKeepsLocks(d: Device, ok: bool)
    requires Exclusive(d) && Counts(d) && Uploading(d) && UploadStep(d, ok).Running?
    ensures Exclusive(UploadStep(d, ok).device) && Counts(UploadStep(d, ok).device)
  {
    hide Total, Congruent;
  }

  lemma CaptureKeepsLocks(d: Device, packet: Packet, memory: Pointer)
    requires Exclusive(d) && Counts(d) && Capturing(d) && CaptureStep(d, packet, memory).Running?
    ensures Exclusive(CaptureStep(d, packet, memory).device) && Counts(CaptureStep(d, packet, memory).device)
  {
    hide Total, Congruent;
  }

  lemma ContentsTail(heap: map<nat, Cell>, chain: seq<nat>)
    requires |chain| >= 2 && Chained(heap, chain)
    ensures Chained(heap, chain[1..]) && heap[chain[0]].next == To(chain[1])
    ensures chain[0] !in chain[1..]
    ensures Contents(heap, chain) == [heap[chain[0]].data] + Contents(heap, chain[1..])
  {
  }

  /** Writing the front packet moves it from the list to what has been sent. */
  lemma WriteKeepsList(d: Device)
    requires Listed(d) && Ahead(d) && d.timer.Writing? && d.timer.i < d.sniffCount
    ensures UploadStep(d, true).Running?
    ensures Listed(UploadStep(d, true).device) && Ahead(UploadStep(d, true).device)
    ensures var d' := UploadStep(d, true).device;
      && d.chain[0] in d.heap && d'.sent == d.sent + [d.heap[d.chain[0]].data] && d'.chain == d.chain[1..]
      && d'.pending == d.pending - 1 && d'.timer == Following(d.timer.attempt, d.timer.i, To(d.chain[0]))
  {
    SenderIsBehind(d);
    ContentsTail(d.heap, d.chain);
    hide Chained, Contents;
    assert d.sent + Contents(d.heap, d.chain) ==
      (d.sent + [d.heap[d.chain[0]].data]) + Contents(d.heap, d.chain[1..]);
  }

  lemma ContentsElsewhere(heap: map<nat, Cell>, heap': map<nat, Cell>, chain: seq<nat>)
    requires Chained(heap, chain)
    requires forall k :: 0 <= k < |chain| ==> chain[k] in heap' && heap'[chain[k]] == heap[chain[k]]
    ensures Chained(heap', chain) && Contents(heap', chain) == Contents(heap, chain)
  {
  }

  lemma FreeKeepsList(d: Device, ok: bool)
    requires Listed(d) && Ahead(d) && d.timer.Freeing?
    ensures UploadStep(d, ok).Running?
    ensures Listed(UploadStep(d, ok).device) && Ahead(UploadStep(d, ok).device)
  {
    var d' := UploadStep(d, ok).device;
    assert d.timer.ptr.address in Leftover(d.timer);
    ContentsElsewhere(d.heap, d'.heap, d.chain);
    hide Chained, Contents;
  }

  lemma FollowKeepsList(d: Device, ok: bool)
    requires Listed(d) && Ahead(d) && d.timer.Following?
    ensures UploadStep(d, ok).Running?
    ensures Listed(UploadStep(d, ok).device) && Ahead(UploadStep(d, ok).device)
  {
    hide Chained, Contents;
  }

  lemma DialKeepsList(d: Device, ok: bool)
    requires Listed(d) && Ahead(d) && d.timer.Dialling?
    ensures UploadStep(d, ok).Running?
    ensures Listed(UploadStep(d, ok).device) && Ahead(UploadStep(d, ok).device)
  {
    hide Chained, Contents, AtEnd;
  }

  /** A batch ends after its last packet, or before its first. */
  lemma BatchEndKeepsList(d: Device, ok: bool)
    requires Listed(d) && Ahead(d) && d.timer.Writing? && (d.timer.i >= d.sniffCount || (d.timer.i == 0 && !ok))
    ensures UploadStep(d, ok).Running?
    ensures Listed(UploadStep(d, ok).device) && Ahead(UploadStep(d, ok).device)
  {
    if d.timer.i < d.sniffCount { SenderIsBehind(d); }
    assert d.chain[0] in d.heap;
    hide Chained, Contents, AtEnd;
  }

  /** A call that fails before any packet is out is followed by another attempt, the third by rest. */
  lemma FailedCallRetries(d: Device)
    requires d.timer.Dialling? || (d.timer.Writing? && d.timer.i < d.sniffCount && Allocated(d, d.timer.ptr))
    ensures UploadStep(d, false).Running?
    ensures UploadStep(d, false).device.timer == if d.timer.attempt < 2 then Dialling(d.timer.attempt + 1) else Idle
  {
  }

  lemma UploadKeepsList(d: Device, ok: bool)
    requires Listed(d) && Ahead(d) && Uploading(d) && !BreaksBatch(d, TimerMoves(ok))
    ensures UploadStep(d, ok).Running?
    ensures Listed(UploadStep(d, ok).device) && Ahead(UploadStep(d, ok).device)
    ensures Calls(d) && !ok ==>
      UploadStep(d, ok).device.timer == if d.timer.attempt < 2 then Dialling(d.timer.attempt + 1) else Idle
  {
    if d.timer.Writing? && d.timer.i < d.sniffCount { SenderIsBehind(d); }
    assert Calls(d) ==> d.timer.Dialling? || Allocated(d, d.timer.ptr);
    if Calls(d) { FailedCallRetries(d); }
    hide Listed, Ahead, UploadStep;
    match d.timer
    case Dialling(_) => DialKeepsList(d, ok);
    case Writing(_, i, _) =>
      if i < d.sniffCount && ok { WriteKeepsList(d); } else { BatchEndKeepsList(d, ok); }
    case Following(_, _, _) => FollowKeepsList(d, ok);
    case Freeing(_, _, _, _) => FreeKeepsList(d, ok);
  }

  lemma FillKeepsList(d: Device, packet: Packet, memory: Pointer)
    requires Listed(d) && Ahead(d) && d.handler.Waiting?
    ensures CaptureStep(d, packet, memory).Running?
    ensures Listed(CaptureStep(d, packet, memory).device) && Ahead(CaptureStep(d, packet, memory).device)
  {
    var d' := CaptureStep(d, packet, memory).device;
    assert Contents(d'.heap, d'.chain) == Contents(d.heap, d.chain);
  }

  lemma AllocateKeepsList(d: Device, packet: Packet, memory: Pointer)
    requires Listed(d) && Ahead(d) && d.handler.Filled? && Possible(d, HandlerMoves(packet, memory))
    ensures CaptureStep(d, packet, memory).Running?
    ensures Listed(CaptureStep(d, packet, memory).device) && Ahead(CaptureStep(d, packet, memory).device)
  {
    var d' := CaptureStep(d, packet, memory).device;
    ContentsElsewhere(d.heap, d'.heap, d.chain);
    hide Chained, Contents;
  }

  lemma TerminateKeepsList(d: Device, packet: Packet, memory: Pointer)
    requires Listed(d) && Ahead(d) && d.handler.Made?
    ensures CaptureStep(d, packet, memory).Running?
    ensures Listed(CaptureStep(d, packet, memory).device) && Ahead(CaptureStep(d, packet, memory).device)
  {
    var d' := CaptureStep(d, packet, memory).device;
    ContentsElsewhere(d.heap, d'.heap, d.chain);
    hide Chained, Contents;
  }

  lemma ContentsGrow(heap: map<nat, Cell>, heap': map<nat, Cell>, chain: seq<nat>, temp: nat)
    requires chain != [] && Chained(heap, chain) && temp in heap && temp !in chain && heap[temp].next == Null
    requires var last := chain[|chain| - 1]; heap' == heap[last := heap[last].(next := To(temp))]
    ensures Chained(heap', chain + [temp])
    ensures Contents(heap', chain + [temp]) == Contents(heap, chain) + [heap[chain[|chain| - 1]].data]
  {
  }

  /** Linking the new node makes the packet in the old one part of the list. */
  lemma LinkKeepsList(d: Device, packet: Packet, memory: Pointer)
    requires Listed(d) && Ahead(d) && d.handler.Ended?
    ensures CaptureStep(d, packet, memory).Running?
    ensures Listed(CaptureStep(d, packet, memory).device) && Ahead(CaptureStep(d, packet, memory).device)
  {
    var d' := CaptureStep(d, packet, memory).device;
    ContentsGrow(d.heap, d'.heap, d.chain, d.handler.temp);
    hide Chained, Contents;
  }

  lemma AdvanceKeepsList(d: Device, packet: Packet, memory: Pointer)
    requires Listed(d) && Ahead(d) && d.handler.Linked?
    ensures CaptureStep(d, packet, memory).Running?
    ensures Listed(CaptureStep(d, packet, memory).device) && Ahead(CaptureStep(d, packet, memory).device)
  {
    hide Chained, Contents, AtFront;
  }

  lemma CaptureKeepsList(d: Device, packet: Packet, memory: Pointer)
    requires Listed(d) && Ahead(d) && Capturing(d) && Possible(d, HandlerMoves(packet, memory))
    ensures CaptureStep(d, packet, memory).Running?
    ensures Listed(CaptureStep(d, packet, memory).device) && Ahead(CaptureStep(d, packet, memory).device)
  {
    hide Listed, Ahead, CaptureStep;
    match d.handler
    case Waiting => FillKeepsList(d, packet, memory);
    case Filled(_) => AllocateKeepsList(d, packet, memory);
    case Made(_, _) => TerminateKeepsList(d, packet, memory);
    case Ended(_, _) => LinkKeepsList(d, packet, memory);
    case Linked(_) => AdvanceKeepsList(d, packet, memory);
  }

  /** No step touches memory that is not allocated, and every step keeps the invariant, as
    * long as no write fails in the middle of a batch. */
  lemma StepKeepsInv(d: Device, e: Event)
    requires Inv(d) && Possible(d, e) && !BreaksBatch(d, e)
    ensures Step(d, e).Running? && Inv(Step(d, e).device)
  {
    hide Listed, Ahead, Exclusive, Counts, CaptureStep, UploadStep, CountStep, SnapshotStep;
    match e
    case TimerMoves(ok) =>
      if Uploading(d) {
        UploadKeepsList(d, ok);
        UploadKeepsLocks(d, ok);
      } else {
        SnapshotKeepsExclusive(d);
        SnapshotKeepsCounts(d);
        SnapshotKeepsList(d);
      }
    case HandlerMoves(packet, memory) =>
      if Capturing(d) {
        CaptureKeepsList(d, packet, memory);
        CaptureKeepsLocks(d, packet, memory);
      } else {
        CountKeepsExclusive(d);
        CountKeepsCounts(d);
        CountKeepsList(d);
      }
  }

  // ---------- whole runs ----------

  /** The state wifi_sniffer_init leaves: one empty node, at address `a`. */
  function Boot(a: nat, garbage: Packet): Device {
    Device(false, false, 1, 0, 0, To(a), To(a), map[a := Cell(garbage, Null)], Idle, Waiting,
           0, [], 0, [a], [], [])
  }

  function Run(d: Device, events: seq<Event>): Outcome
    decreases |events|
  {
    if events == [] then Running(d)
    else
      var o := Step(d, events[0]);
      if o.Fault? then Fault else Run(o.device, events[1..])
  }

  /** Memory comes from malloc, and no write fails in the middle of a batch. */
  predicate Regular(d: Device, events: seq<Event>)
    decreases |events|
  {
    events != [] ==>
      && Possible(d, events[0])
      && !BreaksBatch(d, events[0])
      && (Step(d, events[0]).Running? ==> Regular(Step(d, events[0]).device, events[1..]))
  }

  lemma {:induction false} RunKeepsInv(d: Device, events: seq<Event>)
    requires Inv(d) && Regular(d, events)
    ensures Run(d, events).Running? && Inv(Run(d, events).device)
    decreases |events|
  {
    hide Inv, Step;
    if events != [] {
      StepKeepsInv(d, events[0]);
      RunKeepsInv(Step(d, events[0]).device, events[1..]);
    }
  }

  lemma BootIsInv(a: nat, garbage: Packet)
    ensures Inv(Boot(a, garbage))
  {
    assert Contents(Boot(a, garbage).heap, [a]) == [];
  }

  /** The sender's next step reads or frees a node. */
  predicate SenderTouches(d: Device) {
    (d.timer.Writing? && d.timer.i < d.sniffCount) || d.timer.Following? || d.timer.Freeing?
  }

  /** That node is in use, and not the one the callback works on. */
  lemma SenderIsApart(d: Device)
    requires Inv(d) && SenderTouches(d)
    ensures Allocated(d, d.timer.ptr) && d.timer.ptr != d.curr
  {
    if d.timer.Writing? {
      SenderIsBehind(d);
    } else {
      assert d.timer.ptr.address in Leftover(d.timer);
    }
  }

  /** Every interleaving: no access to memory that is not allocated, mutual exclusion, no lost
    * count, the packets sent and the packets in the list are the captured ones in order, and
    * the list holds the unsent snapshot and everything counted since. */
  lemma EveryRunIsSafe(a: nat, garbage: Packet, events: seq<Event>)
    requires Regular(Boot(a, garbage), events)
    ensures Run(Boot(a, garbage), events).Running?
    ensures var d := Run(Boot(a, garbage), events).device;
      && !(TimerInside(d) && HandlerInside(d))
      && d.increments % 256 == (Total(d.snapshots) + if d.timer.Clearing? then 0 else d.count) % 256
      && d.chain != [] && Chained(d.heap, d.chain)
      && d.sent + Contents(d.heap, d.chain) == d.captured
      && |Contents(d.heap, d.chain)| >= d.pending + (if d.timer.Clearing? then 0 else d.count)
      && (SenderTouches(d) ==> Allocated(d, d.timer.ptr) && d.timer.ptr != d.curr)
  {
    BootIsInv(a, garbage);
    RunKeepsInv(Boot(a, garbage), events);
    var d := Run(Boot(a, garbage), events).device;
    hide Run, Boot, Regular;
    if SenderTouches(d) { SenderIsApart(d); }
  }

  /** The events of a batch whose second write fails, and of the next attempt. */
  const SECOND_WRITE_FAILS: seq<Event> :=
    [TimerMoves(true), TimerMoves(true), TimerMoves(true), TimerMoves(false), TimerMoves(true), TimerMoves(true)]

  lemma RunThree(d: Device, e: seq<Event>, d1: Device, d2: Device, o: Outcome)
    requires |e| == 3 && Step(d, e[0]) == Running(d1) && Step(d1, e[1]) == Running(d2) && Step(d2, e[2]) == o
    ensures Run(d, e) == o
  {
    hide Step;
    assert e[1..][1..] == e[2..];
    assert Run(d2, e[2..]) == if o.Fault? then Fault else Run(o.device, e[2..][1..]);
  }

  lemma SendStep(d: Device) returns (d': Device)
    requires Inv(d) && d.timer.Writing? && d.timer.i < d.sniffCount
    ensures Step(d, TimerMoves(true)) == Running(d') && Inv(d')
    ensures d'.timer == Following(d.timer.attempt, d.timer.i, d.timer.ptr)
    ensures d'.sniffCount == d.sniffCount && d'.head == d.head && (d.timer.i == 0 ==> d.head == d.timer.ptr)
  {
    StepKeepsInv(d, TimerMoves(true));
    hide Exclusive, Counts, Chained, Contents;
    d' := Step(d, TimerMoves(true)).device;
  }

  lemma FollowStep(d: Device) returns (d': Device)
    requires Inv(d) && d.timer.Following?
    ensures Step(d, TimerMoves(true)) == Running(d') && Inv(d') && d'.timer.Freeing?
    ensures d'.timer.attempt == d.timer.attempt && d'.timer.i == d.timer.i && d'.timer.ptr == d.timer.ptr
    ensures d'.sniffCount == d.sniffCount && d'.head == d.head
  {
    StepKeepsInv(d, TimerMoves(true));
    hide Inv;
    d' := Step(d, TimerMoves(true)).device;
  }

  lemma FreeStep(d: Device) returns (d': Device)
    requires Inv(d) && d.timer.Freeing?
    ensures Step(d, TimerMoves(true)) == Running(d') && Inv(d') && d'.timer.Writing?
    ensures d'.timer.attempt == d.timer.attempt && d'.timer.i == d.timer.i + 1
    ensures d'.sniffCount == d.sniffCount && d'.head == d.head && !Allocated(d', d.timer.ptr)
  {
    StepKeepsInv(d, TimerMoves(true));
    hide Inv;
    d' := Step(d, TimerMoves(true)).device;
  }

  lemma FirstWriteFreesHead(d: Device) returns (d3: Device)
    requires Inv(d) && d.timer.Writing? && d.timer.i == 0 && d.sniffCount >= 2
    ensures Run(d, SECOND_WRITE_FAILS[..3]) == Running(d3)
    ensures Inv(d3) && d3.timer.Writing? && d3.timer.i == 1 && d3.timer.attempt == d.timer.attempt
    ensures d3.sniffCount == d.sniffCount && !Allocated(d3, d3.head)
  {
    hide Inv, Run, Step;
    var d1 := SendStep(d);
    var d2 := FollowStep(d1);
    d3 := FreeStep(d2);
    RunThree(d, SECOND_WRITE_FAILS[..3], d1, d2, Running(d3));
  }

  lemma RetryFaults(d: Device)
    requires Inv(d) && d.timer.Writing? && 0 < d.timer.i < d.sniffCount && d.timer.attempt + 1 < ATTEMPTS
    requires !Allocated(d, d.head)
    ensures Run(d, SECOND_WRITE_FAILS[3..]) == Fault
  {
    SenderIsApart(d);
    hide Inv, Run;
    var e := SECOND_WRITE_FAILS[3..];
    var d1 := Step(d, e[0]).device;
    var d2 := Step(d1, e[1]).device;
    RunThree(d, e, d1, d2, Fault);
  }

  lemma {:induction false} RunConcat(d: Device, s: seq<Event>, t: seq<Event>)
    requires Run(d, s).Running?
    ensures Run(d, s + t) == Run(Run(d, s).device, t)
    decreases |s|
  {
    hide Step;
    if s == [] {
      assert s + t == t;
    } else {
      assert (s + t)[1..] == s[1..] + t;
      RunConcat(Step(d, s[0]).device, s[1..], t);
    }
  }

  /** Why regularity is needed: head still points to the node freed after the first write, and
    * the next attempt starts from it. */
  lemma MidBatchFailureFaults(d: Device)
    requires Inv(d) && d.timer.Writing? && d.timer.i == 0 && d.sniffCount >= 2 && d.timer.attempt + 1 < ATTEMPTS
    ensures Run(d, SECOND_WRITE_FAILS) == Fault
  {
    hide Inv, Run;
    var d3 := FirstWriteFreesHead(d);
    RetryFaults(d3);
    var e := SECOND_WRITE_FAILS[3..];
    RunConcat(d, SECOND_WRITE_FAILS[..3], e);
    assert SECOND_WRITE_FAILS == SECOND_WRITE_FAILS[..3] + e;
  }
}
