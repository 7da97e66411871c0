/** The sniffer's globals and nodes as the C code updates them, one atomic step a call. */
module Firmware {
  import opened Sniffer

  class Board {
    var in1: bool
    var in2: bool
    var turn: nat
    var count: nat
    var sniffCount: nat
    var head: Pointer
    var curr: Pointer
    var heap: map<nat, Cell>
    var timer: Timer
    var handler: Handler
    ghost var past: Device  // only the fields that record what happened are used

    ghost function View(): Device
      reads this
    {
      past.(in1 := in1, in2 := in2, turn := turn, count := count, sniffCount := sniffCount,
            head := head, curr := curr, heap := heap, timer := timer, handler := handler)
    }

    constructor (a: nat, garbage: Packet)
      ensures View() == Boot(a, garbage)
    {
      in1, in2, turn, count, sniffCount := false, false, 1, 0, 0;
      head, curr, heap := To(a), To(a), map[a := Cell(garbage, Null)];
      timer, handler := Idle, Waiting;
      past := Boot(a, garbage);
    }

    method Snapshot()
      requires !Uploading(View())
      modifies this
      ensures View() == SnapshotStep(old(View()))
    {
      past := SnapshotStep(View());
      match timer {
        case Idle => in1, timer := true, Asked;
        case Asked => turn, timer := 2, GaveTurn;
        case GaveTurn => timer := if in2 then SawIn2 else Loading;
        case SawIn2 => timer := if turn == 2 then GaveTurn else Loading;
        case Loading => timer := Storing(count);
        case Storing(seen) => sniffCount, timer := seen, Clearing;
        case Clearing => count, timer := 0, Leaving;
        case Leaving => in1, timer := false, Dialling(0);
      }
    }

    method Dial(ok: bool)
      requires timer.Dialling?
      modifies this
      ensures UploadStep(old(View()), ok) == Running(View())
    {
      if !ok {
        timer := Retry(timer.attempt);
      } else if sniffCount == 0 {
        timer := Idle;
      } else {
        timer := Writing(timer.attempt, 0, head);
      }
    }

    method Write(ok: bool)
      requires timer.Writing? && UploadStep(View(), ok).Running?
      modifies this
      ensures UploadStep(old(View()), ok) == Running(View())
    {
      past := UploadStep(View(), ok).device;
      if timer.i >= sniffCount {
        head, timer := timer.ptr, Idle;
      } else if !ok {
        timer := Retry(timer.attempt);
      } else {
        timer := Following(timer.attempt, timer.i, timer.ptr);
      }
    }

    method Free(ok: bool)
      requires (timer.Following? || timer.Freeing?) && UploadStep(View(), ok).Running?
      modifies this
      ensures UploadStep(old(View()), ok) == Running(View())
    {
      if timer.Following? {
        timer := Freeing(timer.attempt, timer.i, timer.ptr, heap[timer.ptr.address].next);
      } else {
        heap, timer := heap - {timer.ptr.address}, Writing(timer.attempt, timer.i + 1, timer.aux);
      }
    }

    /** The callback writes into the tail node and into the node it made. */
    method Capture(packet: Packet, memory: Pointer)
      requires Capturing(View()) && CaptureStep(View(), packet, memory).Running?
      modifies this
      ensures CaptureStep(old(View()), packet, memory) == Running(View())
    {
      past := CaptureStep(View(), packet, memory).device;
      match handler {
        case Waiting =>
          heap := heap[curr.address := heap[curr.address].(data := packet)];
          handler := Filled(packet);
        case Filled(b) =>
          if memory.Null? {
            handler := Waiting;
          } else {
            heap := heap[memory.address := Cell(packet, memory)];
            handler := Made(b, memory.address);
          }
        case Made(b, temp) =>
          heap := heap[temp := heap[temp].(next := Null)];
          handler := Ended(b, temp);
        case Ended(b, temp) =>
          heap := heap[curr.address := heap[curr.address].(next := To(temp))];
          handler := Linked(temp);
        case Linked(temp) =>
          curr, handler := To(temp), Moved;
      }
    }

    method Count()
      requires !Capturing(View())
      modifies this
      ensures View() == CountStep(old(View()))
    {
      past := CountStep(View());
      match handler {
        case Moved => in2, handler := true, Asking;
        case Asking => turn, handler := 1, YieldedTurn;
        case YieldedTurn => handler := if in1 then SawIn1 else Reading;
        case SawIn1 => handler := if turn == 1 then YieldedTurn else Reading;
        case Reading => handler := Bumping(count);
        case Bumping(seen) => count, handler := (seen + 1) % 256, Releasing;
        case Releasing => in2, handler := false, Waiting;
      }
    }

    /** One atomic step of either context. */
    method Move(e: Event)
      requires Step(View(), e).Running?
      modifies this
      ensures Step(old(View()), e) == Running(View())
    {
      hide SnapshotStep, UploadStep, CaptureStep, CountStep;
      match e {
        case TimerMoves(ok) =>
          match timer {
            case Dialling(_) => Dial(ok);
            case Writing(_, _, _) => Write(ok);
            case Following(_, _, _) => Free(ok);
            case Freeing(_, _, _, _) => Free(ok);
            case _ => Snapshot();
          }
        case HandlerMoves(packet, memory) =>
          if handler.Waiting? || handler.Filled? || handler.Made? || handler.Ended? || handler.Linked? {
            Capture(packet, memory);
          } else {
            Count();
          }
      }
    }

    /** A whole interleaving. */
    method Play(events: seq<Event>)
      requires Inv(View()) && Regular(View(), events)
      modifies this
      ensures Run(old(View()), events) == Running(View()) && Inv(View())
    {
      hide Inv, Step, View;
      ghost var d0 := View();
      RunKeepsInv(View(), events);
      for k := 0 to |events|
        invariant Inv(View()) && Regular(View(), events[k..])
        invariant Run(View(), events[k..]) == Run(d0, events)
      {
        StepKeepsInv(View(), events[k]);
        Move(events[k]);
        assert events[k..][1..] == events[k + 1..];
      }
    }
  }
}
