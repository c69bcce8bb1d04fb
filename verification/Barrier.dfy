/**
 * The thread barrier: a count under a lock and one condition variable. Every critical section is
 * one atomic event, so a run is any interleaving of events, spurious wake-ups included.
 */
module Barrier {

  /** The one call each thread makes. */
  datatype Op = Pass | Wait | Increment(delta: int) | TimedIncrement(delta: int) | Init(value: int) {
    predicate Blocks() {
      Wait? || Increment? || TimedIncrement?
    }
  }

  /** Asleep: inside the condition wait. Awake: signalled, but not yet holding the lock again. */
  datatype Phase = Ready | Asleep | Awake | Returned(timedOut: bool)

  datatype Thread = Thread(op: Op, phase: Phase)

  datatype State = State(count: int, threads: seq<Thread>)

  function WakeAll(ts: seq<Thread>): (r: seq<Thread>)
    ensures |r| == |ts|
    ensures forall i :: 0 <= i < |ts| ==> r[i] == if ts[i].phase.Asleep? then ts[i].(phase := Awake) else ts[i]
  {
    seq(|ts|, i requires 0 <= i < |ts| => if ts[i].phase.Asleep? then ts[i].(phase := Awake) else ts[i])
  }

  /** SetCountLocked: a count of zero broadcasts. */
  function SetCount(s: State, count: int): (r: State)
    ensures r.count == count && |r.threads| == |s.threads|
  {
    State(count, if count == 0 then WakeAll(s.threads) else s.threads)
  }

  function SetPhase(s: State, i: nat, phase: Phase): (r: State)
    requires i < |s.threads|
    ensures r.count == s.count && |r.threads| == |s.threads|
  {
    s.(threads := s.threads[i := s.threads[i].(phase := phase)])
  }

  function CountAfter(s: State, op: Op): int {
    match op
    case Pass => s.count - 1
    case Wait => s.count - 1
    case Increment(delta) => s.count + delta
    case TimedIncrement(delta) => s.count + delta
    case Init(value) => value
  }

  datatype Event =
    | Arrive(thread: nat)     // The call takes the lock for the first time.
    | WakeUp(thread: nat)     // A wake-up nobody asked for.
    | Recheck(thread: nat, timeLeft: bool)  // A woken thread has the lock back.
    | TimeOut(thread: nat)    // A timed wait reports that it ran out of time.

  predicate Enabled(s: State, e: Event) {
    && e.thread < |s.threads|
    && var t := s.threads[e.thread];
       match e
       case Arrive(_) => t.phase.Ready?
       case WakeUp(_) => t.phase.Asleep?
       case Recheck(_, _) => t.phase.Awake?
       case TimeOut(_) => t.op.TimedIncrement? && (t.phase.Asleep? || t.phase.Awake?)
  }

  function Do(s: State, e: Event): (r: State)
    requires Enabled(s, e)
    ensures |r.threads| == |s.threads|
  {
    var t := s.threads[e.thread];
    match e
    case Arrive(i) =>
      var counted := SetCount(s, CountAfter(s, t.op));
      SetPhase(counted, i, if t.op.Blocks() && counted.count != 0 then Asleep else Returned(false))
    case WakeUp(i) => SetPhase(s, i, Awake)
    case Recheck(i, timeLeft) =>
      if s.count == 0 then SetPhase(s, i, Returned(false))
      else if t.op.TimedIncrement? && !timeLeft then SetPhase(s, i, Returned(true))
      else SetPhase(s, i, Asleep)
    case TimeOut(i) => SetPhase(s, i, Returned(true))
  }

  function Start(count: int, ops: seq<Op>): State {
    State(count, seq(|ops|, i requires 0 <= i < |ops| => Thread(ops[i], Ready)))
  }

  /** The events can happen one after the other from `s`. */
  predicate Runs(s: State, events: seq<Event>)
    decreases |events|, 0
  {
    events == [] ||
    (Runs(s, events[..|events| - 1]) && Enabled(Final(s, events[..|events| - 1]), events[|events| - 1]))
  }

  function Final(s: State, events: seq<Event>): (r: State)
    requires Runs(s, events)
    ensures |r.threads| == |s.threads|
    decreases |events|, 1
  {
    if events == [] then s else Do(Final(s, events[..|events| - 1]), events[|events| - 1])
  }

  lemma OneMore(s: State, events: seq<Event>, e: Event)
    requires Runs(s, events) && Enabled(Final(s, events), e)
    ensures Runs(s, events + [e]) && Final(s, events + [e]) == Do(Final(s, events), e)
  {
    assert (events + [e])[..|events|] == events;
  }

  // ---------------------------------------------------------------- no wake-up is ever lost

  predicate NobodySleepsAtZero(s: State) {
    s.count == 0 ==> forall i :: 0 <= i < |s.threads| ==> !s.threads[i].phase.Asleep?
  }

  lemma StepKeepsAwake(s: State, e: Event)
    requires Enabled(s, e) && NobodySleepsAtZero(s)
    ensures NobodySleepsAtZero(Do(s, e))
  {
  }

  /** In every run, whatever the calls: when the count is zero, no thread is asleep. */
  lemma {:induction false} NobodyEverSleepsAtZero(s: State, events: seq<Event>)
    requires NobodySleepsAtZero(s) && Runs(s, events)
    ensures NobodySleepsAtZero(Final(s, events))
    decreases |events|
  {
    hide NobodySleepsAtZero, Do, Enabled;
    if events != [] {
      var before := events[..|events| - 1];
      NobodyEverSleepsAtZero(s, before);
      StepKeepsAwake(Final(s, before), events[|events| - 1]);
    }
  }

  // ---------------------------------------------------------------- the count is what is still expected

  function DeltaOf(op: Op): int {
    match op
    case Pass => -1
    case Wait => -1
    case Increment(delta) => delta
    case TimedIncrement(delta) => delta
    case Init(_) => 0
  }

  predicate NoInit(ops: seq<Op>) {
    forall i :: 0 <= i < |ops| ==> !ops[i].Init?
  }

  /** Sum of the deltas of the threads marked in `arrived`. */
  function Sum(ops: seq<Op>, arrived: seq<bool>): int
    requires |ops| == |arrived|
  {
    if ops == [] then 0
    else Sum(ops[1..], arrived[1..]) + if arrived[0] then DeltaOf(ops[0]) else 0
  }

  function Ops(s: State): (r: seq<Op>)
    ensures |r| == |s.threads|
  {
    seq(|s.threads|, i requires 0 <= i < |s.threads| => s.threads[i].op)
  }

  function Arrived(s: State): (r: seq<bool>)
    ensures |r| == |s.threads|
    ensures forall i :: 0 <= i < |r| ==> (r[i] <==> !s.threads[i].phase.Ready?)
  {
    seq(|s.threads|, i requires 0 <= i < |s.threads| => !s.threads[i].phase.Ready?)
  }

  predicate Everyone(arrived: seq<bool>) {
    forall i :: 0 <= i < |arrived| ==> arrived[i]
  }

  lemma {:induction false} SumAdd(ops: seq<Op>, arrived: seq<bool>, i: nat)
    requires |ops| == |arrived| && i < |ops| && !arrived[i]
    ensures Sum(ops, arrived[i := true]) == Sum(ops, arrived) + DeltaOf(ops[i])
  {
    if i == 0 {
      assert arrived[0 := true][1..] == arrived[1..];
    } else {
      SumAdd(ops[1..], arrived[1..], i - 1);
      assert arrived[i := true][1..] == arrived[1..][i - 1 := true];
    }
  }

  /** `count` plus what was expected initially accounts for exactly the threads that arrived. */
  predicate Accounted(s: State, initial: int) {
    s.count == initial + Sum(Ops(s), Arrived(s))
  }

  lemma StepAccounts(s: State, e: Event, initial: int)
    requires Enabled(s, e) && Accounted(s, initial) && NoInit(Ops(s))
    ensures Accounted(Do(s, e), initial) && Ops(Do(s, e)) == Ops(s)
    ensures Arrived(Do(s, e)) == if e.Arrive? then Arrived(s)[e.thread := true] else Arrived(s)
  {
    hide Sum;
    var r := Do(s, e);
    assert Ops(r) == Ops(s);
    if e.Arrive? {
      assert Arrived(r) == Arrived(s)[e.thread := true];
      SumAdd(Ops(s), Arrived(s), e.thread);
    } else {
      assert Arrived(r) == Arrived(s);
    }
  }

  lemma StartAccounts(initial: int, ops: seq<Op>)
    ensures var s := Start(initial, ops);
            Ops(s) == ops && Accounted(s, initial) && NobodySleepsAtZero(s) && Sum(ops, Arrived(s)) == 0
  {
    var s := Start(initial, ops);
    assert Ops(s) == ops;
    NobodySums(ops, Arrived(s));
  }

  lemma {:induction false} NobodySums(ops: seq<Op>, arrived: seq<bool>)
    requires |ops| == |arrived| && forall i :: 0 <= i < |arrived| ==> !arrived[i]
    ensures Sum(ops, arrived) == 0
  {
    if ops != [] {
      NobodySums(ops[1..], arrived[1..]);
    }
  }

  /** In every run without re-initialisation the count is the initial one plus all arrived deltas. */
  lemma {:induction false} CountAccounts(initial: int, ops: seq<Op>, events: seq<Event>)
    requires NoInit(ops) && Runs(Start(initial, ops), events)
    ensures var s := Final(Start(initial, ops), events); Accounted(s, initial) && Ops(s) == ops && NobodySleepsAtZero(s)
    decreases |events|
  {
    hide Accounted, Ops, NobodySleepsAtZero, Do, Enabled, NoInit, Start, Arrived;
    if events == [] {
      StartAccounts(initial, ops);
    } else {
      var before := events[..|events| - 1];
      CountAccounts(initial, ops, before);
      StepAccounts(Final(Start(initial, ops), before), events[|events| - 1], initial);
      StepKeepsAwake(Final(Start(initial, ops), before), events[|events| - 1]);
    }
  }

  // ---------------------------------------------------------------- nobody gets through early

  /** A blocking call has returned, other than by timing out. */
  predicate Released(s: State, i: nat)
    requires i < |s.threads|
  {
    s.threads[i].op.Blocks() && s.threads[i].phase == Returned(false)
  }

  predicate Safe(s: State) {
    forall i :: 0 <= i < |s.threads| && Released(s, i) ==> Everyone(Arrived(s))
  }

  /** A blocking call that returns without timing out does so at a count of zero. */
  lemma ReleasedAtZero(s: State, e: Event, i: nat)
    requires Enabled(s, e) && i < |s.threads| && !Released(s, i) && Released(Do(s, e), i)
    ensures i == e.thread && Do(s, e).count == 0
  {
  }

  predicate HasBlocker(ops: seq<Op>, arrived: seq<bool>)
    requires |ops| == |arrived|
  {
    exists i :: 0 <= i < |ops| && arrived[i] && ops[i].Blocks()
  }

  /** The count can be zero with a blocking caller inside only when all have arrived. */
  ghost predicate Closed(initial: int, ops: seq<Op>) {
    forall arrived: seq<bool> ::
      |arrived| == |ops| && HasBlocker(ops, arrived) && initial + Sum(ops, arrived) == 0 ==> Everyone(arrived)
  }

  /** Not every use is safe: with a count of one, a waiter alone brings it to zero before the other party arrives. */
  lemma TooSmallACountIsOpen()
    ensures !Closed(1, [Wait, Pass])
  {
    var ops, arrived := [Wait, Pass], [true, false];
    assert arrived[0] && ops[0].Blocks();
    assert HasBlocker(ops, arrived);
    assert !arrived[1];
    assert ops[1..] == [Pass] && arrived[1..] == [false];
    assert Sum([Pass], [false]) == 0;
    assert Sum(ops, arrived) == -1;
  }

  lemma StepSafe(initial: int, s: State, e: Event)
    requires Closed(initial, Ops(s)) && NoInit(Ops(s)) && Accounted(s, initial) && Safe(s) && Enabled(s, e)
    ensures Safe(Do(s, e))
  {
    hide Sum, Do, Enabled, NoInit, Closed, Ops;
    var r := Do(s, e);
    StepAccounts(s, e, initial);
    forall i | 0 <= i < |r.threads| && Released(r, i) ensures Everyone(Arrived(r)) {
      if !Released(s, i) {
        ReleasedAtZero(s, e, i);
        OpsAt(r, i);
        assert HasBlocker(Ops(r), Arrived(r));
        ClosedAt(initial, Ops(r), Arrived(r));
      }
    }
  }

  lemma OpsAt(s: State, i: nat)
    requires i < |s.threads|
    ensures Ops(s)[i] == s.threads[i].op
  {
  }

  lemma ClosedAt(initial: int, ops: seq<Op>, arrived: seq<bool>)
    requires Closed(initial, ops) && |arrived| == |ops| && HasBlocker(ops, arrived) && initial + Sum(ops, arrived) == 0
    ensures Everyone(arrived)
  {
  }

  lemma {:induction false} ClosedIsSafe(initial: int, ops: seq<Op>, events: seq<Event>)
    requires NoInit(ops) && Closed(initial, ops) && Runs(Start(initial, ops), events)
    ensures Safe(Final(Start(initial, ops), events))
    decreases |events|
  {
    hide Closed, Do, Enabled, Safe, Accounted, Ops;
    if events == [] {
      NobodyReleasedYet(initial, ops);
    } else {
      var before := events[..|events| - 1];
      ClosedIsSafe(initial, ops, before);
      CountAccounts(initial, ops, before);
      StepSafe(initial, Final(Start(initial, ops), before), events[|events| - 1]);
    }
  }

  lemma NobodyReleasedYet(initial: int, ops: seq<Op>)
    ensures Safe(Start(initial, ops))
  {
  }

  /** The run in which exactly the threads marked in `arrived` call, in index order. */
  lemma {:induction false} ArriveMarked(initial: int, ops: seq<Op>, arrived: seq<bool>, k: nat)
      returns (events: seq<Event>)
    requires |arrived| == |ops| && k <= |ops| && NoInit(ops)
    ensures Runs(Start(initial, ops), events)
    ensures var s := Final(Start(initial, ops), events);
            && Arrived(s) == arrived[..k] + seq(|ops| - k, _ => false)
            && (forall i :: 0 <= i < |ops| ==> s.threads[i].phase != Returned(true))
    decreases k
  {
    hide Do, Enabled;
    var start := Start(initial, ops);
    if k == 0 {
      events := [];
      assert Arrived(start) == arrived[..0] + seq(|ops|, _ => false);
    } else {
      events := ArriveMarked(initial, ops, arrived, k - 1);
      var s := Final(start, events);
      CountAccounts(initial, ops, events);
      if arrived[k - 1] {
        assert Arrived(s)[k - 1] == false;
        ReadyMayArrive(s, k - 1);
        ArrivalTimesNobodyOut(s, k - 1);
        StepAccounts(s, Arrive(k - 1), initial);
        OneMore(start, events, Arrive(k - 1));
        events := events + [Arrive(k - 1)];
      }
      assert Arrived(Final(start, events)) == arrived[..k] + seq(|ops| - k, _ => false);
    }
  }

  lemma ReadyMayArrive(s: State, i: nat)
    requires i < |s.threads| && s.threads[i].phase.Ready?
    ensures Enabled(s, Arrive(i))
  {
  }

  lemma ArrivalTimesNobodyOut(s: State, i: nat)
    requires Enabled(s, Arrive(i)) && forall j :: 0 <= j < |s.threads| ==> s.threads[j].phase != Returned(true)
    ensures forall j :: 0 <= j < |s.threads| ==> Do(s, Arrive(i)).threads[j].phase != Returned(true)
  {
  }

  /** An incomplete group that brings the count to zero lets a blocking caller through early. */
  lemma OpenIsUnsafe(initial: int, ops: seq<Op>, arrived: seq<bool>) returns (events: seq<Event>)
    requires NoInit(ops) && |arrived| == |ops| && HasBlocker(ops, arrived)
    requires initial + Sum(ops, arrived) == 0 && !Everyone(arrived)
    ensures Runs(Start(initial, ops), events) && !Safe(Final(Start(initial, ops), events))
  {
    hide Do, Enabled, Sum;
    events := ArriveMarked(initial, ops, arrived, |ops|);
    var start := Start(initial, ops);
    var s := Final(start, events);
    CountAccounts(initial, ops, events);
    assert Arrived(s) == arrived;
    var i :| 0 <= i < |ops| && arrived[i] && ops[i].Blocks();
    OpsAt(s, i);
    assert !s.threads[i].phase.Asleep? && Arrived(s)[i];
    if s.threads[i].phase.Awake? {
      AwakeGetsOut(s, i);
      StepAccounts(s, Recheck(i, true), initial);
      OneMore(start, events, Recheck(i, true));
      events := events + [Recheck(i, true)];
    }
    assert Released(Final(start, events), i);
  }

  lemma AwakeGetsOut(s: State, i: nat)
    requires i < |s.threads| && s.threads[i].phase.Awake? && s.count == 0 && s.threads[i].op.Blocks()
    ensures Enabled(s, Recheck(i, true)) && Released(Do(s, Recheck(i, true)), i)
  {
  }

  /**
   * Barrier safety, exactly: no blocking call returns before everyone has arrived in any run, if
   * and only if no incomplete group with a blocking caller in it can bring the count to zero.
   */
  lemma SafeInEveryRunIffClosed(initial: int, ops: seq<Op>)
    requires NoInit(ops)
    ensures (forall events :: Runs(Start(initial, ops), events) ==> Safe(Final(Start(initial, ops), events)))
            <==> Closed(initial, ops)
  {
    hide Do, Enabled, Sum, Safe, Start, Runs, Final, HasBlocker, Everyone;
    if Closed(initial, ops) {
      forall events | Runs(Start(initial, ops), events) ensures Safe(Final(Start(initial, ops), events)) {
        ClosedIsSafe(initial, ops, events);
      }
    } else {
      var arrived: seq<bool> :|
        |arrived| == |ops| && HasBlocker(ops, arrived) && initial + Sum(ops, arrived) == 0 && !Everyone(arrived);
      var events := OpenIsUnsafe(initial, ops, arrived);
    }
  }

  // ---------------------------------------------------------------- the two documented uses

  predicate AllMinusOne(ops: seq<Op>) {
    forall i :: 0 <= i < |ops| ==> DeltaOf(ops[i]) == -1
  }

  function Missing(arrived: seq<bool>): nat {
    if arrived == [] then 0 else Missing(arrived[1..]) + if arrived[0] then 0 else 1
  }

  lemma {:induction false} SumIsMissing(ops: seq<Op>, arrived: seq<bool>)
    requires |ops| == |arrived| && AllMinusOne(ops)
    ensures |ops| + Sum(ops, arrived) == Missing(arrived)
    ensures Missing(arrived) == 0 <==> Everyone(arrived)
  {
    if ops != [] {
      SumIsMissing(ops[1..], arrived[1..]);
      assert Everyone(arrived) <==> arrived[0] && Everyone(arrived[1..]);
    }
  }

  /** A single-use latch: initialised to the number of parties, each of which passes or waits. */
  predicate Latch(initial: int, ops: seq<Op>) {
    initial == |ops| && forall i :: 0 <= i < |ops| ==> ops[i].Pass? || ops[i].Wait?
  }

  /** Passes before or after one Increment of their number, from zero. */
  predicate CountDown(initial: int, ops: seq<Op>, j: nat) {
    && initial == 0 && j < |ops|
    && (ops[j] == Increment(|ops| - 1) || ops[j] == TimedIncrement(|ops| - 1))
    && forall i :: 0 <= i < |ops| && i != j ==> ops[i].Pass?
  }

  /** In a latch the count is at all times the number of parties still missing. */
  lemma LatchCountsMissing(initial: int, ops: seq<Op>, events: seq<Event>)
    requires Latch(initial, ops) && Runs(Start(initial, ops), events)
    ensures var s := Final(Start(initial, ops), events); s.count == Missing(Arrived(s))
  {
    hide Sum, Do, Enabled, Start, Runs, Final, Missing;
    CountAccounts(initial, ops, events);
    SumIsMissing(ops, Arrived(Final(Start(initial, ops), events)));
  }

  lemma LatchIsClosed(initial: int, ops: seq<Op>)
    requires Latch(initial, ops)
    ensures Closed(initial, ops)
  {
    hide Sum, Everyone;
    forall arrived: seq<bool> | |arrived| == |ops| && HasBlocker(ops, arrived) && initial + Sum(ops, arrived) == 0
      ensures Everyone(arrived)
    {
      SumIsMissing(ops, arrived);
    }
  }

  lemma {:induction false} SumWithOneChanged(ops: seq<Op>, arrived: seq<bool>, j: nat)
    requires |ops| == |arrived| && j < |ops| && arrived[j]
    ensures Sum(ops[j := Pass], arrived) == Sum(ops, arrived) - DeltaOf(ops[j]) - 1
  {
    if j == 0 {
      assert ops[0 := Pass][1..] == ops[1..];
    } else {
      SumWithOneChanged(ops[1..], arrived[1..], j - 1);
      assert ops[j := Pass][1..] == ops[1..][j - 1 := Pass];
    }
  }

  lemma CountDownIsClosed(initial: int, ops: seq<Op>, j: nat)
    requires CountDown(initial, ops, j)
    ensures Closed(initial, ops)
  {
    hide Sum, Everyone;
    forall arrived: seq<bool> | |arrived| == |ops| && HasBlocker(ops, arrived) && initial + Sum(ops, arrived) == 0
      ensures Everyone(arrived)
    {
      var i :| 0 <= i < |ops| && arrived[i] && ops[i].Blocks();
      assert i == j;
      SumWithOneChanged(ops, arrived, j);
      SumIsMissing(ops[j := Pass], arrived);
    }
  }

  // ---------------------------------------------------------------- everybody gets out

  function Pending(ts: seq<Thread>): nat {
    if ts == [] then 0 else Pending(ts[1..]) + if ts[0].phase.Returned? then 0 else 1
  }

  lemma {:induction false} OneReturns(ts: seq<Thread>, i: nat, phase: Phase)
    requires i < |ts| && !ts[i].phase.Returned? && phase.Returned?
    ensures Pending(ts[i := ts[i].(phase := phase)]) == Pending(ts) - 1
  {
    var us := ts[i := ts[i].(phase := phase)];
    if i == 0 {
      assert us[1..] == ts[1..];
    } else {
      OneReturns(ts[1..], i - 1, phase);
      assert us[1..] == ts[1..][i - 1 := ts[i].(phase := phase)];
    }
  }

  /** All have arrived and the count is zero: every possible event lets one more thread return. */
  lemma ReleasedThreadsDrain(s: State, e: Event)
    requires Everyone(Arrived(s)) && s.count == 0 && NobodySleepsAtZero(s) && Enabled(s, e)
    ensures Pending(Do(s, e).threads) == Pending(s.threads) - 1
    ensures Everyone(Arrived(Do(s, e))) && Do(s, e).count == 0 && NobodySleepsAtZero(Do(s, e))
  {
    hide Pending;
    StepKeepsAwake(s, e);
    assert !e.Arrive? by {
      assert Arrived(s)[e.thread];
    }
    OneReturns(s.threads, e.thread, Do(s, e).threads[e.thread].phase);
  }

  /** And as long as a thread is inside, such an event is possible. */
  lemma {:induction false} ReleasedThreadsMayReturn(s: State) returns (e: Event)
    requires Everyone(Arrived(s)) && s.count == 0 && NobodySleepsAtZero(s) && Pending(s.threads) > 0
    ensures Enabled(s, e)
  {
    var i := SomePending(s.threads);
    assert Arrived(s)[i];
    e := Recheck(i, true);
  }

  lemma {:induction false} SomePending(ts: seq<Thread>) returns (i: nat)
    requires Pending(ts) > 0
    ensures i < |ts| && !ts[i].phase.Returned?
  {
    if !ts[0].phase.Returned? {
      i := 0;
    } else {
      i := SomePending(ts[1..]);
      i := i + 1;
    }
  }

  // ---------------------------------------------------------------- why reuse is unsafe

  /** The last thread inside can only be woken to fall asleep again. */
  predicate Stuck(s: State) {
    && s.count != 0 && |s.threads| > 0
    && s.threads[0].op.Wait? && (s.threads[0].phase.Asleep? || s.threads[0].phase.Awake?)
    && forall i :: 1 <= i < |s.threads| ==> s.threads[i].phase.Returned?
  }

  lemma {:induction false} StuckForever(s: State, events: seq<Event>)
    requires Stuck(s) && Runs(s, events)
    ensures Stuck(Final(s, events))
    decreases |events|
  {
    if events != [] {
      StuckForever(s, events[..|events| - 1]);
    }
  }

  /**
   * The warned-of misuse: a count set again while a woken waiter has not left yet puts that
   * waiter back to sleep, and it never returns although all have arrived.
   */
  lemma ReinitialisingTooEarlyDeadlocks() returns (events: seq<Event>)
    ensures var start := Start(2, [Wait, Pass, Init(1)]);
            Runs(start, events) && Everyone(Arrived(Final(start, events))) && Stuck(Final(start, events))
  {
    hide Do, Start, Enabled, Stuck, Arrived;
    var start := Start(2, [Wait, Pass, Init(1)]);
    ReinitialisingSteps();
    events := [];
    events := RunOne(start, events, Arrive(0), Reinitialising(1, Asleep, Ready, Ready));
    events := RunOne(start, events, Arrive(1), Reinitialising(0, Awake, Returned(false), Ready));
    events := RunOne(start, events, Arrive(2), Reinitialising(1, Awake, Returned(false), Returned(false)));
    events := RunOne(start, events, Recheck(0, true), Reinitialising(1, Asleep, Returned(false), Returned(false)));
  }

  function Reinitialising(count: int, waiter: Phase, passer: Phase, third: Phase): State {
    State(count, [Thread(Wait, waiter), Thread(Pass, passer), Thread(Init(1), third)])
  }

  lemma RunOne(start: State, events: seq<Event>, e: Event, next: State) returns (longer: seq<Event>)
    requires Runs(start, events) && Enabled(Final(start, events), e) && Do(Final(start, events), e) == next
    ensures Runs(start, longer) && Final(start, longer) == next
  {
    longer := events + [e];
    OneMore(start, events, e);
  }

  lemma ReinitialisingSteps()
    ensures Start(2, [Wait, Pass, Init(1)]) == Reinitialising(2, Ready, Ready, Ready)
    ensures var s := Reinitialising(2, Ready, Ready, Ready);
            Enabled(s, Arrive(0)) && Do(s, Arrive(0)) == Reinitialising(1, Asleep, Ready, Ready)
    ensures var s := Reinitialising(1, Asleep, Ready, Ready);
            Enabled(s, Arrive(1)) && Do(s, Arrive(1)) == Reinitialising(0, Awake, Returned(false), Ready)
    ensures var s := Reinitialising(0, Awake, Returned(false), Ready);
            Enabled(s, Arrive(2)) && Do(s, Arrive(2)) == Reinitialising(1, Awake, Returned(false), Returned(false))
    ensures var s := Reinitialising(1, Awake, Returned(false), Returned(false));
            Enabled(s, Recheck(0, true)) &&
            Do(s, Recheck(0, true)) == Reinitialising(1, Asleep, Returned(false), Returned(false))
    ensures var s := Reinitialising(1, Asleep, Returned(false), Returned(false));
            Stuck(s) && Everyone(Arrived(s))
  {
  }
}
