/** The server's READY barrier: one thread for each ESP32 counts down under a mutex, waits on a
  * condition variable until everybody has, and then answers. */
module ReadyBarrier {
  import opened Sequences

  /** Where a thread stands.  In Counting, Notifying, Releasing, Checking and Sending it holds
    * the mutex. */
  datatype Phase =
    | Listening    // accepting and receiving
    | GotReady     // READY is in, about to lock
    | Counting     // about to decrement
    | Notifying    // about to wake the waiters
    | Releasing    // about to unlock
    | Knocking     // about to lock in order to look at the counter
    | Checking     // about to look at the counter
    | Waiting      // blocked on the condition variable
    | Sending      // about to answer READY
    | Replied
    | Stopped      // left by an exception

  /** What the network does with an accept, receive or send: it works; the message is ignored
    * or the connection was reset, and the thread starts over; or the thread gives up. */
  datatype Choice = Good | Again | Broken

  /** `counted` is how many READY messages each thread has counted, `passed` whether a thread
    * has passed the barrier; no step reads them. */
  datatype Barrier = Barrier(counter: int, held: bool, phase: seq<Phase>, counted: seq<nat>, passed: bool)

  predicate Holds(p: Phase) { p.Counting? || p.Notifying? || p.Releasing? || p.Checking? || p.Sending? }

  function Woken(phase: seq<Phase>): (r: seq<Phase>)
    ensures |r| == |phase|
    ensures forall i :: 0 <= i < |r| ==> r[i] == if phase[i].Waiting? then Knocking else phase[i]
  {
    seq(|phase|, i requires 0 <= i < |phase| => if phase[i].Waiting? then Knocking else phase[i])
  }

  /** Thread i takes its next step, or none while it needs the mutex and another has it.  A
    * waiting thread that moves wakes up spuriously. */
  function Step(b: Barrier, i: nat, choice: Choice): (c: Barrier)
    requires i < |b.phase| == |b.counted|
    ensures |c.phase| == |c.counted| == |b.phase|
  {
    match b.phase[i]
    case Listening =>
      (match choice
       case Good => b.(phase := b.phase[i := GotReady])
       case Again => b
       case Broken => b.(phase := b.phase[i := Stopped]))
    case GotReady => if b.held then b else b.(held := true, phase := b.phase[i := Counting])
    case Counting =>
      b.(counter := b.counter - 1, counted := b.counted[i := b.counted[i] + 1], phase := b.phase[i := Notifying])
    case Notifying => b.(phase := Woken(b.phase)[i := Releasing])
    case Releasing => b.(held := false, phase := b.phase[i := Knocking])
    case Knocking => if b.held then b else b.(held := true, phase := b.phase[i := Checking])
    case Checking =>
      if b.counter == 0 then b.(passed := true, phase := b.phase[i := Sending])
      else b.(held := false, phase := b.phase[i := Waiting])
    case Waiting => b.(phase := b.phase[i := Knocking])
    case Sending =>
      b.(held := false, phase := b.phase[i := if choice.Good? then Replied else if choice.Again?
          then Listening else Stopped])
    case Replied => b
    case Stopped => b
  }

  /** Numbers of at most one that add up to how many there are, are all one. */
  lemma {:induction false} AllOnes(s: seq<nat>)
    requires forall i :: 0 <= i < |s| ==> s[i] <= 1
    ensures Total(s) <= |s|
    ensures Total(s) == |s| ==> forall i :: 0 <= i < |s| ==> s[i] == 1
  {
    if s != [] {
      AllOnes(s[1..]);
      assert forall i :: 1 <= i < |s| ==> s[i] == s[1..][i - 1];
    }
  }

  // ---------- the invariant ----------

  predicate Shaped(b: Barrier) { |b.phase| == |b.counted| && b.counter == |b.phase| - Total(b.counted) }

  /** At most one thread holds the mutex. */
  predicate Locked(b: Barrier) {
    && (forall i {:trigger Holds(b.phase[i])} :: 0 <= i < |b.phase| && Holds(b.phase[i]) ==> b.held)
    && (forall i, j {:trigger Holds(b.phase[i]), Holds(b.phase[j])} ::
         0 <= i < j < |b.phase| ==> !(Holds(b.phase[i]) && Holds(b.phase[j])))
  }

  /** If the mutex is held, it is by a thread. */
  predicate Owned(b: Barrier) {
    b.held ==> exists i {:trigger Holds(b.phase[i])} :: 0 <= i < |b.phase| && Holds(b.phase[i])
  }

  predicate Fresh(p: Phase) { p.Listening? || p.GotReady? || p.Counting? || p.Stopped? }

  /** Until a thread passes, each has counted once when it is past the decrement and not at
    * all before; after that, each has counted. */
  predicate Fair(b: Barrier)
    requires |b.phase| == |b.counted|
  {
    if b.passed then forall i :: 0 <= i < |b.phase| ==> b.counted[i] >= 1
    else forall i :: 0 <= i < |b.phase| ==>
      !b.phase[i].Sending? && !b.phase[i].Replied? && b.counted[i] == if Fresh(b.phase[i]) then 0 else 1
  }

  /** No waiter has missed the end of the countdown: whoever brings the counter to zero still
    * has to notify. */
  predicate Heard(b: Barrier) {
    b.counter == 0 && (exists i :: 0 <= i < |b.phase| && b.phase[i].Waiting?) ==>
      exists j :: 0 <= j < |b.phase| && b.phase[j].Notifying?
  }

  /** While a thread answers, the counter stays where it found it. */
  predicate Answering(b: Barrier) {
    forall i :: 0 <= i < |b.phase| && b.phase[i].Sending? ==> b.counter == 0
  }

  predicate Inv(b: Barrier) { Shaped(b) && Locked(b) && Owned(b) && Fair(b) && Heard(b) && Answering(b) }

  function Start(n: nat): Barrier {
    Barrier(n, false, seq(n, i => Listening), seq(n, i => 0), false)
  }

  lemma {:induction false} Zeros(n: nat)
    ensures Total(seq(n, i => 0)) == 0
  {
    if n > 0 {
      Zeros(n - 1);
      assert seq(n, i => 0)[1..] == seq(n - 1, i => 0);
    }
  }

  lemma StartIsInv(n: nat)
    ensures Inv(Start(n))
  {
    Zeros(n);
  }

  lemma StepKeepsShape(b: Barrier, i: nat, choice: Choice)
    requires i < |b.phase| && Shaped(b)
    ensures Shaped(Step(b, i, choice))
  {
    hide Total, Woken;
    if b.phase[i].Counting? { TotalUpdate(b.counted, i, b.counted[i] + 1); }
  }

  lemma StepKeepsLocked(b: Barrier, i: nat, choice: Choice)
    requires i < |b.phase| == |b.counted| && Locked(b)
    ensures Locked(Step(b, i, choice))
  {
    assert Holds(b.phase[i]) ==> b.held;
  }

  lemma StepKeepsOwned(b: Barrier, i: nat, choice: Choice)
    requires i < |b.phase| == |b.counted| && Owned(b)
    ensures Owned(Step(b, i, choice))
  {
    var c := Step(b, i, choice);
    if c.held {
      if Holds(c.phase[i]) {
      } else {
        var k :| 0 <= k < |b.phase| && Holds(b.phase[k]);
        assert Holds(c.phase[k]);
      }
    }
  }

  lemma StepKeepsAnswering(b: Barrier, i: nat, choice: Choice)
    requires i < |b.phase| == |b.counted| && Locked(b) && Answering(b)
    ensures Answering(Step(b, i, choice))
  {
    var c := Step(b, i, choice);
    forall k | 0 <= k < |c.phase| && c.phase[k].Sending? ensures c.counter == 0 {
      if k != i {
        assert Holds(b.phase[k]) && !Holds(b.phase[i]);
      }
    }
  }

  /** The thread that finds the counter at zero first finds that everybody has counted. */
  lemma PassingIsFair(b: Barrier, i: nat, choice: Choice)
    requires i < |b.phase| && Shaped(b) && Fair(b) && b.phase[i].Checking? && b.counter == 0
    ensures Fair(Step(b, i, choice))
  {
    if !b.passed { AllOnes(b.counted); }
  }

  lemma StepKeepsFair(b: Barrier, i: nat, choice: Choice)
    requires i < |b.phase| && Shaped(b) && Fair(b)
    ensures Fair(Step(b, i, choice))
  {
    hide Total;
    if b.phase[i].Checking? && b.counter == 0 { PassingIsFair(b, i, choice); }
  }

  lemma StepKeepsHeard(b: Barrier, i: nat, choice: Choice)
    requires i < |b.phase| == |b.counted| && Heard(b)
    ensures Heard(Step(b, i, choice))
  {
    var c := Step(b, i, choice);
    if c.counter == 0 && exists w :: 0 <= w < |c.phase| && c.phase[w].Waiting? {
      var w :| 0 <= w < |c.phase| && c.phase[w].Waiting?;
      if b.phase[i].Counting? {
        assert c.phase[i].Notifying?;
      } else {
        assert b.phase[w].Waiting?;
        var k :| 0 <= k < |b.phase| && b.phase[k].Notifying?;
        assert c.phase[k].Notifying?;
      }
    }
  }

  /** A notification leaves nobody blocked on the condition variable. */
  lemma NotifyWakesAll(b: Barrier, i: nat, choice: Choice)
    requires i < |b.phase| == |b.counted| && b.phase[i].Notifying?
    ensures forall j :: 0 <= j < |b.phase| ==> !Step(b, i, choice).phase[j].Waiting?
  {
  }

  lemma StepKeepsInv(b: Barrier, i: nat, choice: Choice)
    requires Inv(b) && i < |b.phase|
    ensures Inv(Step(b, i, choice))
  {
    StepKeepsShape(b, i, choice);
    StepKeepsLocked(b, i, choice);
    StepKeepsOwned(b, i, choice);
    StepKeepsFair(b, i, choice);
    StepKeepsHeard(b, i, choice);
    StepKeepsAnswering(b, i, choice);
    hide Shaped, Locked, Owned, Fair, Heard, Answering;
  }

  // ---------- whole runs ----------

  datatype Event = Event(thread: nat, choice: Choice)

  predicate For(n: nat, events: seq<Event>) { forall e :: e in events ==> e.thread < n }

  function Run(b: Barrier, events: seq<Event>): (c: Barrier)
    requires |b.phase| == |b.counted| && For(|b.phase|, events)
    ensures |c.phase| == |c.counted| == |b.phase|
    decreases |events|
  {
    if events == [] then b
    else
      assert events[0] in events;
      Run(Step(b, events[0].thread, events[0].choice), events[1..])
  }

  lemma {:induction false} RunKeepsInv(b: Barrier, events: seq<Event>)
    requires Inv(b) && For(|b.phase|, events)
    ensures Inv(Run(b, events))
    decreases |events|
  {
    if events != [] {
      assert events[0] in events;
      StepKeepsInv(b, events[0].thread, events[0].choice);
      hide Inv;
      RunKeepsInv(Step(b, events[0].thread, events[0].choice), events[1..]);
    }
  }

  /** How often READY came to thread j: it listened, and receiving worked. */
  function Received(b: Barrier, events: seq<Event>, j: nat): nat
    requires j < |b.phase| == |b.counted| && For(|b.phase|, events)
    decreases |events|
  {
    if events == [] then 0
    else
      assert events[0] in events;
      (if events[0] == Event(j, Good) && b.phase[j].Listening? then 1 else 0)
        + Received(Step(b, events[0].thread, events[0].choice), events[1..], j)
  }

  /** READY is in but not counted yet. */
  function ToCount(p: Phase): nat { if p.GotReady? || p.Counting? then 1 else 0 }

  lemma StepReceives(b: Barrier, e: Event, j: nat)
    requires j < |b.phase| == |b.counted| && e.thread < |b.phase|
    ensures var c := Step(b, e.thread, e.choice);
      c.counted[j] + ToCount(c.phase[j]) == b.counted[j] + ToCount(b.phase[j])
        + if e == Event(j, Good) && b.phase[j].Listening? then 1 else 0
  {
  }

  /** What a thread has counted are the READY messages that came to it, and nothing else. */
  lemma {:induction false} CountsReceived(b: Barrier, events: seq<Event>, j: nat)
    requires j < |b.phase| == |b.counted| && For(|b.phase|, events)
    ensures Run(b, events).counted[j] + ToCount(Run(b, events).phase[j])
            == b.counted[j] + ToCount(b.phase[j]) + Received(b, events, j)
    decreases |events|
  {
    if events != [] {
      assert events[0] in events;
      StepReceives(b, events[0], j);
      hide Step, ToCount;
      CountsReceived(Step(b, events[0].thread, events[0].choice), events[1..], j);
    }
  }

  /** In every run, with any resets, failures and spurious wake-ups: no thread answers READY
    * before READY has come to every thread and was counted, and a thread holds the mutex alone. */
  lemma NoEarlyReply(n: nat, events: seq<Event>)
    requires For(n, events)
    ensures var b := Run(Start(n), events);
      && (forall i, j :: 0 <= i < n && 0 <= j < n && (b.phase[i].Sending? || b.phase[i].Replied?) ==>
           b.counted[j] >= 1 && Received(Start(n), events, j) >= 1)
      && (forall i, j :: 0 <= i < j < n ==> !(Holds(b.phase[i]) && Holds(b.phase[j])))
  {
    StartIsInv(n);
    RunKeepsInv(Start(n), events);
    forall j | 0 <= j < n ensures Run(Start(n), events).counted[j] <= Received(Start(n), events, j) {
      CountsReceived(Start(n), events, j);
    }
    hide Run, Received;
  }

  // ---------- without resets ----------

  /** The connection of a thread that was about to answer is reset. */
  predicate Resets(b: Barrier, e: Event) {
    e.thread < |b.phase| && b.phase[e.thread].Sending? && e.choice.Again?
  }

  predicate NoResets(b: Barrier, events: seq<Event>)
    requires |b.phase| == |b.counted| && For(|b.phase|, events)
    decreases |events|
  {
    events == [] ||
    (assert events[0] in events;
     !Resets(b, events[0]) && NoResets(Step(b, events[0].thread, events[0].choice), events[1..]))
  }

  /** No thread has counted twice or come back to count again. */
  predicate OnceEach(b: Barrier)
    requires |b.phase| == |b.counted|
  {
    forall i :: 0 <= i < |b.phase| ==>
      b.counted[i] <= 1 && (b.phase[i].Listening? || b.phase[i].GotReady? || b.phase[i].Counting? ==> b.counted[i] == 0)
  }

  lemma StepKeepsOnceEach(b: Barrier, e: Event)
    requires |b.phase| == |b.counted| && e.thread < |b.phase| && OnceEach(b) && !Resets(b, e)
    ensures OnceEach(Step(b, e.thread, e.choice))
  {
  }

  /** The counter does not go below zero, and once at zero it stays there. */
  lemma {:induction false} ZeroStays(b: Barrier, events: seq<Event>)
    requires Inv(b) && OnceEach(b) && For(|b.phase|, events) && NoResets(b, events)
    ensures var c := Run(b, events);
      0 <= c.counter <= b.counter && OnceEach(c)
    decreases |events|
  {
    AllOnes(b.counted);
    if events != [] {
      assert events[0] in events;
      var next := Step(b, events[0].thread, events[0].choice);
      assert Run(b, events[..1]) == next by { assert events[..1][1..] == []; }
      RunKeepsInv(b, events[..1]);
      StepKeepsOnceEach(b, events[0]);
      ZeroStays(next, events[1..]);
      hide Inv, OnceEach, Run;
      assert next.counter <= b.counter;
    }
  }

  /** Once the counter is at zero and the last notification is out, no thread is blocked, and
    * whenever the mutex is free a thread that has counted gets through in three steps. */
  lemma NobodyStuck(b: Barrier, i: nat)
    requires Inv(b) && b.counter == 0 && i < |b.phase|
    ensures (forall j :: 0 <= j < |b.phase| ==> !b.phase[j].Notifying?) ==> !b.phase[i].Waiting?
    ensures !b.held && b.phase[i].Knocking? ==>
      Step(Step(Step(b, i, Good), i, Good), i, Good).phase[i] == Replied
  {
  }

  lemma StartIsOnceEach(n: nat)
    ensures OnceEach(Start(n))
  {
  }

  /** In a run without resets from the start the counter, once at zero, is at zero for good, and
    * nobody stays blocked. */
  lemma WithoutResets(n: nat, events: seq<Event>, more: seq<Event>)
    requires For(n, events) && NoResets(Start(n), events) && Run(Start(n), events).counter == 0
    requires For(n, more) && NoResets(Run(Start(n), events), more)
    ensures var c := Run(Run(Start(n), events), more);
      && c.counter == 0
      && ((forall j :: 0 <= j < n ==> !c.phase[j].Notifying?) ==> forall i :: 0 <= i < n ==> !c.phase[i].Waiting?)
  {
    StartIsInv(n);
    StartIsOnceEach(n);
    RunKeepsInv(Start(n), events);
    ZeroStays(Start(n), events);
    var b := Run(Start(n), events);
    RunKeepsInv(b, more);
    ZeroStays(b, more);
    var c := Run(b, more);
    hide Run, NoResets, Shaped, Locked, Owned, Fair, OnceEach, Answering;
    forall i | 0 <= i < n && (forall j :: 0 <= j < n ==> !c.phase[j].Notifying?) ensures !c.phase[i].Waiting? {
      NobodyStuck(c, i);
    }
  }

  // ---------- after a reset ----------

  /** A counter below zero never comes back: whoever is not answering by then never will. */
  lemma {:induction false} BelowZeroIsFinal(b: Barrier, events: seq<Event>, i: nat)
    requires |b.phase| == |b.counted| && For(|b.phase|, events) && b.counter < 0 && i < |b.phase|
    requires !b.phase[i].Sending? && !b.phase[i].Replied?
    ensures var c := Run(b, events);
      c.counter < 0 && !c.phase[i].Sending? && !c.phase[i].Replied?
    decreases |events|
  {
    if events != [] {
      assert events[0] in events;
      BelowZeroIsFinal(Step(b, events[0].thread, events[0].choice), events[1..], i);
    }
  }

  /** The reset of an answering thread that then gets READY once more locks out every thread
    * that has not answered, itself included. */
  lemma ResetLocksOut(b: Barrier, i: nat, events: seq<Event>, j: nat)
    requires Inv(b) && b.counter == 0 && i < |b.phase| && b.phase[i].Sending?
    requires j < |b.phase| && !b.phase[j].Replied? && For(|b.phase|, events)
    ensures var c := Step(Step(Step(Step(b, i, Again), i, Good), i, Good), i, Good);
      c.counter == -1 && !Run(c, events).phase[j].Replied?
  {
    assert Holds(b.phase[i]) && (j != i ==> !Holds(b.phase[j]));
    var b1 := Step(b, i, Again);
    assert !b1.held && b1.phase[i] == Listening;
    var b2 := Step(b1, i, Good);
    var b3 := Step(b2, i, Good);
    assert b3.phase[i] == Counting;
    var c := Step(b3, i, Good);
    assert j != i ==> c.phase[j] == b.phase[j] && !b.phase[j].Sending?;
    BelowZeroIsFinal(c, events, j);
  }

  // ---------- the server's fields ----------

  /** The counter and the threads as the server updates them. */
  class ReadyChannel {
    var threadsToWaitFor: int
    var mutexHeld: bool
    var phase: seq<Phase>
    ghost var counted: seq<nat>
    ghost var passed: bool

    ghost function View(): Barrier
      reads this
    {
      Barrier(threadsToWaitFor, mutexHeld, phase, counted, passed)
    }

    constructor (espNumber: nat)
      ensures View() == Start(espNumber)
    {
      threadsToWaitFor, mutexHeld := espNumber, false;
      phase, counted, passed := seq(espNumber, i => Listening), seq(espNumber, i => 0), false;
    }

    method Move(i: nat, choice: Choice)
      requires i < |phase| == |counted|
      modifies this
      ensures View() == Step(old(View()), i, choice)
    {
      match phase[i] {
        case Listening =>
          if choice.Good? {
            phase := phase[i := GotReady];
          } else if choice.Broken? {
            phase := phase[i := Stopped];
          }
        case GotReady =>
          if !mutexHeld { mutexHeld, phase := true, phase[i := Counting]; }
        case Counting =>
          threadsToWaitFor := threadsToWaitFor - 1;
          counted := counted[i := counted[i] + 1];
          phase := phase[i := Notifying];
        case Notifying =>
          phase := Woken(phase)[i := Releasing];
        case Releasing =>
          mutexHeld, phase := false, phase[i := Knocking];
        case Knocking =>
          if !mutexHeld { mutexHeld, phase := true, phase[i := Checking]; }
        case Checking =>
          if threadsToWaitFor == 0 {
            phase, passed := phase[i := Sending], true;
          } else {
            mutexHeld, phase := false, phase[i := Waiting];
          }
        case Waiting =>
          phase := phase[i := Knocking];
        case Sending =>
          mutexHeld := false;
          if choice.Good? {
            phase := phase[i := Replied];
          } else if choice.Again? {
            phase := phase[i := Listening];
          } else {
            phase := phase[i := Stopped];
          }
        case _ =>
      }
    }

    /** A whole interleaving, from any state on. */
    method Play(events: seq<Event>)
      requires Inv(View()) && For(|phase|, events)
      modifies this
      ensures View() == Run(old(View()), events) && Inv(View())
    {
      hide Step;
      ghost var b := View();
      RunKeepsInv(b, events);
      hide Shaped, Locked, Owned, Fair, Heard, Answering;
      for k := 0 to |events|
        invariant |phase| == |counted| == |b.phase| && For(|phase|, events[k..])
        invariant Run(View(), events[k..]) == Run(b, events)
      {
        assert events[k..][0] == events[k] && events[k] in events[k..];
        assert events[k..][1..] == events[k + 1..];
        Move(events[k].thread, events[k].choice);
      }
    }
  }
}
