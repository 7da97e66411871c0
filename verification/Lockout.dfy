/** Exactly when the READY barrier locks threads out, and a run that does. */
module Lockout {
  import opened ReadyBarrier
  import opened Sequences

  // ---------- below zero ----------

  /** Numbers of at least one add up to more than how many there are when one is larger. */
  lemma {:induction false} SomeTwo(s: seq<nat>)
    requires forall i :: 0 <= i < |s| ==> s[i] >= 1
    ensures Total(s) >= |s|
    ensures Total(s) > |s| <==> exists i :: 0 <= i < |s| && s[i] >= 2
  {
    if s != [] {
      SomeTwo(s[1..]);
      assert forall i :: 1 <= i < |s| ==> s[i] == s[1..][i - 1];
      if exists i :: 0 <= i < |s| && s[i] >= 2 {
        var i :| 0 <= i < |s| && s[i] >= 2;
        assert i > 0 ==> s[1..][i - 1] >= 2;
      }
    }
  }

  /** The counter is below zero exactly when a thread has counted two READY messages. */
  lemma BelowZeroIffTwice(n: nat, events: seq<Event>)
    requires For(n, events)
    ensures var b := Run(Start(n), events);
      b.counter < 0 <==> exists i :: 0 <= i < n && b.counted[i] >= 2
  {
    StartIsInv(n);
    RunKeepsInv(Start(n), events);
    var b := Run(Start(n), events);
    if b.passed { SomeTwo(b.counted); } else { AllOnes(b.counted); }
  }

  // ---------- who can still be answered ----------

  predicate Before(p: Phase) { p.Listening? || p.GotReady? || p.Counting? }

  /** The countdown can still be found at zero: it is not below, no decrement is under way that
    * takes it there, and no thread has stopped without counting. */
  predicate Open(b: Barrier)
    requires |b.phase| == |b.counted|
  {
    && b.counter >= 0
    && (b.counter == 0 ==> forall j :: 0 <= j < |b.phase| ==> !b.phase[j].Counting?)
    && forall j :: 0 <= j < |b.phase| && b.phase[j].Stopped? ==> b.counted[j] >= 1
  }

  /** The thread has stopped, or is back after a reset with its READY already counted. */
  predicate Gone(b: Barrier, i: nat)
    requires i < |b.phase| == |b.counted|
  {
    b.phase[i].Stopped? || (Before(b.phase[i]) && b.counted[i] >= 1)
  }

  // ---------- once lost, lost for good ----------

  predicate Lost(b: Barrier, i: nat)
    requires i < |b.phase| == |b.counted|
  {
    !b.phase[i].Sending? && !b.phase[i].Replied? && (!Open(b) || Gone(b, i))
  }

  lemma StoppedStays(b: Barrier, m: nat, choice: Choice, j: nat)
    requires m < |b.phase| == |b.counted| && j < |b.phase| && b.phase[j].Stopped?
    ensures Step(b, m, choice).phase[j].Stopped? && Step(b, m, choice).counted[j] == b.counted[j]
  {
  }

  /** A thread that stopped without counting keeps every thread from passing. */
  lemma NobodyPasses(b: Barrier, j: nat, i: nat)
    requires Inv(b) && i < |b.phase| && j < |b.phase| && b.phase[j].Stopped? && b.counted[j] == 0
    ensures !b.phase[i].Sending? && !b.phase[i].Replied?
  {
  }

  /** At zero everybody has counted exactly once; below, somebody twice. */
  lemma CounterSays(b: Barrier)
    requires Inv(b)
    ensures b.counter <= 0 ==> forall i :: 0 <= i < |b.phase| ==> b.counted[i] >= 1
    ensures b.counter > 0 ==> !b.passed && exists j :: 0 <= j < |b.phase| && b.counted[j] == 0
  {
    if b.passed {
      SomeTwo(b.counted);
    } else {
      AllOnes(b.counted);
      if b.counter > 0 && forall j :: 0 <= j < |b.phase| ==> b.counted[j] >= 1 { SomeTwo(b.counted); }
    }
  }

  /** A decrement under way at zero takes the counter below. */
  lemma ZeroIsLeft(b: Barrier, m: nat, choice: Choice, j: nat, i: nat)
    requires Inv(b) && m < |b.phase| && i < |b.phase| && j < |b.phase|
    requires b.counter == 0 && b.phase[j].Counting? && !b.phase[i].Sending? && !b.phase[i].Replied?
    ensures Lost(Step(b, m, choice), i)
  {
    assert Holds(b.phase[j]);
    var c := Step(b, m, choice);
    assert m != j ==> !Holds(b.phase[m]) && c.phase[j].Counting? && c.counter == 0;
  }

  lemma ReturnedStays(b: Barrier, m: nat, choice: Choice, i: nat)
    requires m < |b.phase| == |b.counted| && i < |b.phase| && b.counter <= 0
    requires Before(b.phase[i]) && b.counted[i] >= 1
    ensures Lost(Step(b, m, choice), i)
  {
  }

  lemma GoneStays(b: Barrier, m: nat, choice: Choice, i: nat)
    requires Inv(b) && m < |b.phase| && i < |b.phase| && Gone(b, i)
    ensures Lost(Step(b, m, choice), i)
  {
    CounterSays(b);
    if b.phase[i].Stopped? {
      StoppedStays(b, m, choice, i);
    } else {
      assert b.counter <= 0;
      hide Shaped, Locked, Owned, Fair, Heard, Answering;
      ReturnedStays(b, m, choice, i);
    }
  }

  lemma BelowZeroStays(b: Barrier, m: nat, choice: Choice, i: nat)
    requires |b.phase| == |b.counted| && m < |b.phase| && i < |b.phase| && b.counter < 0
    requires !b.phase[i].Sending? && !b.phase[i].Replied?
    ensures Lost(Step(b, m, choice), i)
  {
  }

  lemma StepKeepsLost(b: Barrier, m: nat, choice: Choice, i: nat)
    requires Inv(b) && m < |b.phase| && i < |b.phase| && Lost(b, i)
    ensures Lost(Step(b, m, choice), i)
  {
    if b.counter < 0 {
      BelowZeroStays(b, m, choice, i);
    } else if Gone(b, i) {
      GoneStays(b, m, choice, i);
    } else if j :| 0 <= j < |b.phase| && b.phase[j].Stopped? && b.counted[j] == 0 {
      StoppedStays(b, m, choice, j);
      StepKeepsInv(b, m, choice);
      NobodyPasses(Step(b, m, choice), j, i);
    } else {
      var j :| 0 <= j < |b.phase| && b.phase[j].Counting?;
      ZeroIsLeft(b, m, choice, j, i);
    }
  }

  lemma {:induction false} LostStays(b: Barrier, events: seq<Event>, i: nat)
    requires Inv(b) && For(|b.phase|, events) && i < |b.phase| && Lost(b, i)
    ensures Lost(Run(b, events), i)
    decreases |events|
  {
    if events != [] {
      assert events[0] in events;
      StepKeepsInv(b, events[0].thread, events[0].choice);
      StepKeepsLost(b, events[0].thread, events[0].choice, i);
      hide Inv, Lost;
      LostStays(Step(b, events[0].thread, events[0].choice), events[1..], i);
    }
  }

  // ---------- otherwise there is a way ----------

  /** Steps a thread still takes before it has counted. */
  function Ahead(p: Phase): nat { if p.Listening? then 3 else if p.GotReady? then 2 else if p.Counting? then 1 else 0 }

  /** Steps it still takes before it lets go of the mutex, once it has counted. */
  function Inside(p: Phase): nat {
    if p.Notifying? || p.Checking? then 2 else if p.Releasing? || p.Sending? then 1 else 0
  }

  function AllAhead(phase: seq<Phase>): seq<nat> {
    seq(|phase|, i requires 0 <= i < |phase| => Ahead(phase[i]))
  }

  function AllInside(phase: seq<Phase>): seq<nat> {
    seq(|phase|, i requires 0 <= i < |phase| => Inside(phase[i]))
  }

  lemma Moves(phase: seq<Phase>, k: nat, p: Phase)
    requires k < |phase|
    ensures Total(AllAhead(phase[k := p])) == Total(AllAhead(phase)) - Ahead(phase[k]) + Ahead(p)
    ensures Total(AllInside(phase[k := p])) == Total(AllInside(phase)) - Inside(phase[k]) + Inside(p)
  {
    TotalUpdate(AllAhead(phase), k, Ahead(p));
    TotalUpdate(AllInside(phase), k, Inside(p));
    assert AllAhead(phase[k := p]) == AllAhead(phase)[k := Ahead(p)];
    assert AllInside(phase[k := p]) == AllInside(phase)[k := Inside(p)];
  }

  lemma WakingIsFree(phase: seq<Phase>)
    ensures AllAhead(Woken(phase)) == AllAhead(phase) && AllInside(Woken(phase)) == AllInside(phase)
  {
  }

  ghost predicate Closer(b: Barrier, c: Barrier) {
    || Total(AllAhead(c.phase)) < Total(AllAhead(b.phase))
    || (Total(AllAhead(c.phase)) == Total(AllAhead(b.phase)) && Total(AllInside(c.phase)) < Total(AllInside(b.phase)))
  }

  /** A thread about to count, or inside, comes closer by its step. */
  lemma StepIsCloser(b: Barrier, k: nat)
    requires k < |b.phase| == |b.counted|
    requires b.phase[k].Listening? || (b.phase[k].GotReady? && !b.held) || Holds(b.phase[k])
    ensures Closer(b, Step(b, k, Good))
  {
    var phase, p := b.phase, Step(b, k, Good).phase[k];
    assert Ahead(p) < Ahead(phase[k]) || (Ahead(p) == Ahead(phase[k]) && Inside(p) < Inside(phase[k]));
    if phase[k].Notifying? {
      WakingIsFree(phase);
      Moves(Woken(phase), k, p);
      assert Step(b, k, Good).phase == Woken(phase)[k := p];
    } else {
      Moves(phase, k, p);
      assert Step(b, k, Good).phase == phase[k := p];
    }
    hide Total, AllAhead, AllInside, Ahead, Inside, Step, Woken;
  }

  /** While the countdown is open, the holder of the mutex can go on and leave it open. */
  lemma HolderGoesOn(b: Barrier, k: nat, i: nat)
    requires Inv(b) && Open(b) && k < |b.phase| && Holds(b.phase[k]) && i < |b.phase| && !Gone(b, i)
    ensures Open(Step(b, k, Good)) && !Gone(Step(b, k, Good), i)
  {
    hide Total, Owned, Heard, Answering;
    assert forall j :: 0 <= j < |b.phase| && j != k ==> !Holds(b.phase[j]);
  }

  /** While the countdown has not ended and the mutex is free, some thread that has not counted
    * can go on. */
  lemma SomeoneGoesOn(b: Barrier, i: nat) returns (k: nat)
    requires Inv(b) && Open(b) && !b.held && b.counter > 0 && i < |b.phase| && !Gone(b, i)
    ensures k < |b.phase| && (b.phase[k].Listening? || b.phase[k].GotReady?)
    ensures Open(Step(b, k, Good)) && !Gone(Step(b, k, Good), i)
  {
    CounterSays(b);
    k :| 0 <= k < |b.phase| && b.counted[k] == 0;
    assert !Holds(b.phase[k]);
    hide Total, Owned, Heard, Answering;
  }

  /** At zero with the mutex free a thread that is not gone stands before the last look. */
  lemma ReadyToLook(b: Barrier, i: nat)
    requires Inv(b) && Open(b) && !b.held && b.counter == 0 && i < |b.phase| && !Gone(b, i) && !b.phase[i].Replied?
    ensures b.phase[i].Knocking?
  {
    CounterSays(b);
    assert !Holds(b.phase[i]);
    if b.phase[i].Waiting? {
      var j :| 0 <= j < |b.phase| && b.phase[j].Notifying?;
      assert Holds(b.phase[j]);
    }
  }

  lemma LookAndAnswer(b: Barrier, i: nat)
    requires i < |b.phase| == |b.counted| && b.phase[i].Knocking? && !b.held && b.counter == 0
    ensures Run(b, [Event(i, Good), Event(i, Good), Event(i, Good)]).phase[i].Replied?
  {
    var e := Event(i, Good);
    var b1 := Step(b, i, Good);
    var b2 := Step(b1, i, Good);
    var b3 := Step(b2, i, Good);
    assert [e][1..] == [] && Run(b2, [e]) == b3;
    assert [e, e][1..] == [e] && Run(b1, [e, e]) == b3;
    assert [e, e, e][1..] == [e, e];
  }

  /** As long as the countdown is open, a thread that is not gone gets its answer in some
    * continuation. */
  lemma {:induction false} CanBeAnswered(b: Barrier, i: nat) returns (events: seq<Event>)
    requires Inv(b) && Open(b) && i < |b.phase| && !Gone(b, i)
    ensures For(|b.phase|, events) && Run(b, events).phase[i].Replied?
    ensures forall e :: e in events ==> e.choice.Good?
    decreases Total(AllAhead(b.phase)), Total(AllInside(b.phase))
  {
    if b.phase[i].Replied? {
      events := [];
    } else if !b.held && b.counter == 0 {
      ReadyToLook(b, i);
      events := [Event(i, Good), Event(i, Good), Event(i, Good)];
      LookAndAnswer(b, i);
    } else {
      var k;
      if b.held {
        k :| 0 <= k < |b.phase| && Holds(b.phase[k]);
        HolderGoesOn(b, k, i);
      } else {
        k := SomeoneGoesOn(b, i);
      }
      StepIsCloser(b, k);
      StepKeepsInv(b, k, Good);
      hide Inv, Open, Gone, Step;
      var rest := CanBeAnswered(Step(b, k, Good), i);
      events := [Event(k, Good)] + rest;
      assert events[1..] == rest;
    }
  }

  lemma SendingIsOpen(b: Barrier, i: nat)
    requires Inv(b) && i < |b.phase| && b.phase[i].Sending?
    ensures Open(b) && !Gone(b, i)
  {
    CounterSays(b);
    assert Holds(b.phase[i]);
    assert forall j :: 0 <= j < |b.phase| && j != i ==> !Holds(b.phase[j]);
  }

  lemma AnswerableFrom(b: Barrier, i: nat)
    requires Inv(b) && i < |b.phase| && !b.phase[i].Replied?
    ensures (exists more :: For(|b.phase|, more) && Run(b, more).phase[i].Replied?) <==> Open(b) && !Gone(b, i)
  {
    if Open(b) && !Gone(b, i) {
      var more := CanBeAnswered(b, i);
    } else {
      if b.phase[i].Sending? { SendingIsOpen(b, i); }
      hide Inv, Open, Gone;
      forall more | For(|b.phase|, more) ensures !Run(b, more).phase[i].Replied? {
        LostStays(b, more, i);
      }
    }
  }

  /** In any reachable state a thread that has not answered can still be answered in some
    * continuation exactly when the countdown is open and the thread is not gone. */
  lemma AnswerableIff(n: nat, events: seq<Event>, i: nat)
    requires For(n, events) && i < n && !Run(Start(n), events).phase[i].Replied?
    ensures var b := Run(Start(n), events);
      (exists more :: For(n, more) && Run(b, more).phase[i].Replied?) <==> Open(b) && !Gone(b, i)
  {
    StartIsInv(n);
    RunKeepsInv(Start(n), events);
    hide Run, Inv, Open, Gone;
    AnswerableFrom(Run(Start(n), events), i);
  }

  // ---------- who stops, and who does not ----------

  /** The thread's connection breaks while it listens or answers. */
  predicate BreaksOff(b: Barrier, events: seq<Event>, i: nat)
    requires i < |b.phase| == |b.counted| && For(|b.phase|, events)
    decreases |events|
  {
    events != [] &&
    (assert events[0] in events;
     || (events[0] == Event(i, Broken) && (b.phase[i].Listening? || b.phase[i].Sending?))
     || BreaksOff(Step(b, events[0].thread, events[0].choice), events[1..], i))
  }

  lemma StepStops(b: Barrier, e: Event, i: nat)
    requires i < |b.phase| == |b.counted| && e.thread < |b.phase|
    ensures Step(b, e.thread, e.choice).phase[i].Stopped? <==>
      b.phase[i].Stopped? || (e == Event(i, Broken) && (b.phase[i].Listening? || b.phase[i].Sending?))
  {
  }

  lemma {:induction false} StoppedBreaks(b: Barrier, events: seq<Event>, i: nat)
    requires i < |b.phase| == |b.counted| && For(|b.phase|, events)
    ensures Run(b, events).phase[i].Stopped? <==> b.phase[i].Stopped? || BreaksOff(b, events, i)
    decreases |events|
  {
    if events != [] {
      assert events[0] in events;
      StepStops(b, events[0], i);
      hide Step;
      StoppedBreaks(Step(b, events[0].thread, events[0].choice), events[1..], i);
    }
  }

  lemma {:induction false} BreakIsAnEvent(b: Barrier, events: seq<Event>, i: nat)
    requires i < |b.phase| == |b.counted| && For(|b.phase|, events) && BreaksOff(b, events, i)
    ensures Event(i, Broken) in events
    decreases |events|
  {
    hide Step;
    assert events[0] in events;
    if !(events[0] == Event(i, Broken) && (b.phase[i].Listening? || b.phase[i].Sending?)) {
      BreakIsAnEvent(Step(b, events[0].thread, events[0].choice), events[1..], i);
    }
  }

  /** For every run from the start: a thread has stopped exactly when its connection broke while
    * it listened or answered; so only if the run has such an event of that thread. */
  lemma StoppedIff(n: nat, events: seq<Event>, i: nat)
    requires For(n, events) && i < n
    ensures Run(Start(n), events).phase[i].Stopped? <==> BreaksOff(Start(n), events, i)
    ensures Run(Start(n), events).phase[i].Stopped? ==> Event(i, Broken) in events
  {
    StoppedBreaks(Start(n), events, i);
    if BreaksOff(Start(n), events, i) { BreakIsAnEvent(Start(n), events, i); }
  }

  /** Nobody has stopped or come back. */
  ghost predicate AllPresent(b: Barrier) {
    Inv(b) && OnceEach(b) && forall i :: 0 <= i < |b.phase| ==> !b.phase[i].Stopped?
  }

  lemma PresentIsOpen(b: Barrier)
    requires AllPresent(b)
    ensures Open(b) && forall i :: 0 <= i < |b.phase| ==> !Gone(b, i)
  {
    AllOnes(b.counted);
    CounterSays(b);
  }

  lemma {:induction false} RunKeepsPresent(b: Barrier, events: seq<Event>)
    requires AllPresent(b) && For(|b.phase|, events) && NoResets(b, events)
    requires forall e :: e in events ==> !e.choice.Broken?
    ensures AllPresent(Run(b, events))
    decreases |events|
  {
    if events != [] {
      var e := events[0];
      assert e in events && !e.choice.Broken?;
      StepKeepsInv(b, e.thread, e.choice);
      StepKeepsOnceEach(b, e);
      forall i | 0 <= i < |b.phase| ensures !Step(b, e.thread, e.choice).phase[i].Stopped? {
        StepStops(b, e, i);
      }
      hide Inv, OnceEach, Step, Resets;
      RunKeepsPresent(Step(b, e.thread, e.choice), events[1..]);
    }
  }

  lemma {:induction false} GoodIsNoReset(b: Barrier, events: seq<Event>)
    requires |b.phase| == |b.counted| && For(|b.phase|, events) && forall e :: e in events ==> e.choice.Good?
    ensures NoResets(b, events)
    decreases |events|
  {
    hide Step;
    if events != [] {
      assert events[0] in events;
      GoodIsNoReset(Step(b, events[0].thread, events[0].choice), events[1..]);
    }
  }

  lemma {:induction false} RepliedStays(b: Barrier, events: seq<Event>, i: nat)
    requires i < |b.phase| == |b.counted| && For(|b.phase|, events) && b.phase[i].Replied?
    ensures Run(b, events).phase[i].Replied?
    decreases |events|
  {
    if events != [] {
      assert events[0] in events;
      RepliedStays(Step(b, events[0].thread, events[0].choice), events[1..], i);
    }
  }

  lemma {:induction false} RunConcat(b: Barrier, s: seq<Event>, t: seq<Event>)
    requires |b.phase| == |b.counted| && For(|b.phase|, s) && For(|b.phase|, t)
    ensures For(|b.phase|, s + t) && Run(b, s + t) == Run(Run(b, s), t)
    decreases |s|
  {
    hide Step;
    if s == [] {
      assert s + t == t;
    } else {
      assert s[0] in s;
      assert (s + t)[1..] == s[1..] + t;
      RunConcat(Step(b, s[0].thread, s[0].choice), s[1..], t);
    }
  }

  /** The first k threads can be answered one after the other, everything working. */
  lemma {:induction false} AnswerFirst(b: Barrier, k: nat) returns (more: seq<Event>)
    requires AllPresent(b) && k <= |b.phase|
    ensures For(|b.phase|, more) && forall e :: e in more ==> e.choice.Good?
    ensures forall i :: 0 <= i < k ==> Run(b, more).phase[i].Replied?
  {
    more := [];
    if k > 0 {
      hide Inv, OnceEach, Run, NoResets, Open, Gone;
      var first := AnswerFirst(b, k - 1);
      GoodIsNoReset(b, first);
      RunKeepsPresent(b, first);
      var c := Run(b, first);
      PresentIsOpen(c);
      var last := CanBeAnswered(c, k - 1);
      more := first + last;
      RunConcat(b, first, last);
      forall i | 0 <= i < k ensures Run(b, more).phase[i].Replied? {
        if i < k - 1 { RepliedStays(c, last, i); }
      }
    }
  }

  /** For every run from the start in which no connection breaks and no answer is reset, whatever
    * messages are ignored: if everything works from then on, all threads can be answered. */
  lemma NobodyLockedOut(n: nat, events: seq<Event>) returns (more: seq<Event>)
    requires For(n, events) && NoResets(Start(n), events) && forall e :: e in events ==> !e.choice.Broken?
    ensures For(n, more) && forall e :: e in more ==> e.choice.Good?
    ensures forall i :: 0 <= i < n ==> Run(Run(Start(n), events), more).phase[i].Replied?
  {
    StartIsInv(n);
    StartIsOnceEach(n);
    RunKeepsPresent(Start(n), events);
    hide Run, NoResets;
    more := AnswerFirst(Run(Start(n), events), n);
  }

  // ---------- a run that locks out ----------

  const UP: Event := Event(0, Good)
  const DOWN: Event := Event(1, Good)

  /** Both threads of two count, the first finds zero, its answer is reset, and READY comes to
    * it again. */
  const RESET_RUN: seq<Event> :=
    [UP, UP, UP, UP, UP] + [DOWN, DOWN, DOWN, DOWN, DOWN] + [UP, UP, Event(0, Again)] + [UP, UP, UP]

  /** A thread that counts and lets go of the mutex again, nobody waiting. */
  lemma CountOnce(b: Barrier, i: nat, events: seq<Event>)
    requires i < |b.phase| == |b.counted| && b.phase[i].Listening? && !b.held
    requires forall j :: 0 <= j < |b.phase| ==> !b.phase[j].Waiting?
    requires events == [Event(i, Good), Event(i, Good), Event(i, Good), Event(i, Good), Event(i, Good)]
    ensures For(|b.phase|, events)
    ensures Run(b, events) == b.(counter := b.counter - 1, counted := b.counted[i := b.counted[i] + 1],
                                 phase := b.phase[i := Knocking])
  {
    var e := Event(i, Good);
    var b1 := Step(b, i, Good);
    var b2 := Step(b1, i, Good);
    var b3 := Step(b2, i, Good);
    var b4 := Step(b3, i, Good);
    assert b4.phase == b.phase[i := Releasing];
    var b5 := Step(b4, i, Good);
    assert b5.phase == b.phase[i := Knocking];
    assert events[1..] == [e, e, e, e] && [e, e, e, e][1..] == [e, e, e] && [e, e, e][1..] == [e, e];
    assert [e, e][1..] == [e] && [e][1..] == [];
    hide Step;
    assert Run(b4, [e]) == b5;
    assert Run(b3, [e, e]) == b5;
    assert Run(b2, [e, e, e]) == b5;
    assert Run(b1, [e, e, e, e]) == b5;
  }

  lemma TwoCount()
    ensures For(2, RESET_RUN[..10])
    ensures Run(Start(2), RESET_RUN[..10]) == Barrier(0, false, [Knocking, Knocking], [1, 1], false)
  {
    var b := Start(2);
    CountOnce(b, 0, [UP, UP, UP, UP, UP]);
    var c := Run(b, [UP, UP, UP, UP, UP]);
    CountOnce(c, 1, [DOWN, DOWN, DOWN, DOWN, DOWN]);
    RunConcat(b, [UP, UP, UP, UP, UP], [DOWN, DOWN, DOWN, DOWN, DOWN]);
    assert RESET_RUN[..10] == [UP, UP, UP, UP, UP] + [DOWN, DOWN, DOWN, DOWN, DOWN];
    hide Run, Step;
    assert b.counted[0 := 1][1 := 1] == [1, 1];
    assert b.phase[0 := Knocking][1 := Knocking] == [Knocking, Knocking];
  }

  lemma ResetAnswer(b: Barrier, events: seq<Event>)
    requires b == Barrier(0, false, [Knocking, Knocking], [1, 1], false) && events == [UP, UP, Event(0, Again)]
    ensures For(2, events) && Run(b, events) == Barrier(0, false, [Listening, Knocking], [1, 1], true)
  {
    var b1 := Step(b, 0, Good);
    var b2 := Step(b1, 0, Good);
    assert b2 == Barrier(0, true, [Sending, Knocking], [1, 1], true);
    var b3 := Step(b2, 0, Again);
    assert events[1..][1..] == [Event(0, Again)] && [Event(0, Again)][1..] == [];
    hide Step;
    assert Run(b2, [Event(0, Again)]) == b3;
    assert Run(b1, events[1..]) == b3;
  }

  lemma CountAgain(b: Barrier, events: seq<Event>)
    requires b == Barrier(0, false, [Listening, Knocking], [1, 1], true) && events == [UP, UP, UP]
    ensures For(2, events) && Run(b, events) == Barrier(-1, true, [Notifying, Knocking], [2, 1], true)
  {
    var b1 := Step(b, 0, Good);
    var b2 := Step(b1, 0, Good);
    assert b2 == Barrier(0, true, [Counting, Knocking], [1, 1], true);
    var b3 := Step(b2, 0, Good);
    assert events[1..][1..] == [UP] && [UP][1..] == [];
    hide Step;
    assert Run(b2, [UP]) == b3;
    assert Run(b1, events[1..]) == b3;
  }

  /** In this run of two threads from the start, neither is ever answered. */
  lemma ResetRunLocksOut(more: seq<Event>, i: nat)
    requires For(2, more) && i < 2
    ensures For(2, RESET_RUN) && Run(Start(2), RESET_RUN).counter == -1
    ensures !Run(Run(Start(2), RESET_RUN), more).phase[i].Replied?
  {
    TwoCount();
    var b := Run(Start(2), RESET_RUN[..10]);
    ResetAnswer(b, [UP, UP, Event(0, Again)]);
    var c := Run(b, [UP, UP, Event(0, Again)]);
    CountAgain(c, [UP, UP, UP]);
    RunConcat(b, [UP, UP, Event(0, Again)], [UP, UP, UP]);
    RunConcat(Start(2), RESET_RUN[..10], [UP, UP, Event(0, Again)] + [UP, UP, UP]);
    assert RESET_RUN == RESET_RUN[..10] + ([UP, UP, Event(0, Again)] + [UP, UP, UP]);
    hide Run, Step;
    BelowZeroIsFinal(Run(Start(2), RESET_RUN), more, i);
  }
}
