/**
 The drain protocol (recycle.go) as interleaved atomic steps. Each call checks the flag and then takes
 the read gate, two separate steps; the recycler flips the flag, and a goroutine takes the write gate
 while a timeout races it.
 */
module Drain {
  import opened JsonTree

  /** Where a call stands: begin (recycle.go:132-143), the call itself, end (recycle.go:146-152). */
  datatype Pc =
    | Arrived    // begin called
    | Checked    // read draining as false, has not locked
    | Locked     // holds the read gate
    | Entered    // inflight raised
    | Running    // count raised: begin has returned true
    | Leaving    // end: inflight lowered, gate still held
    | Done       // gate released
    | Rejected   // begin has returned false

  /** The goroutine that takes the write gate (recycle.go:213-216). */
  datatype Writer = NotStarted | Started | Pending | Holding | Signalled

  /** The watchdog in recycle (recycle.go:205-226). */
  datatype Watchdog = Watching | Flipped | Selecting | Exited(drained: bool)

  datatype State = State(
    calls: seq<Pc>,
    draining: bool,
    inflight: int,
    count: nat,
    readers: nat,
    writer: Writer,
    watchdog: Watchdog)

  const INIT := State([], false, 0, 0, 0, NotStarted, Watching)

  datatype Event =
    | Arrive             // a new call
    | Advance(call: nat) // the next atomic step of a call
    | Recycle            // a trigger fires: compare-and-swap of draining
    | Spawn              // go func() { gate.Lock() ... }
    | WriterStep         // announce the lock, acquire it, close the channel
    | SeeDrained         // select takes the closed channel
    | Timeout            // select takes the timer

  /** A pending or holding writer keeps new readers out (sync.RWMutex). */
  predicate GateOpen(s: State) {
    s.writer == NotStarted || s.writer == Started
  }

  function AdvanceCall(s: State, c: nat): Outcome<State>
    requires c < |s.calls|
  {
    match s.calls[c]
    case Arrived => Ok(s.(calls := s.calls[c := if s.draining then Rejected else Checked]))
    case Checked => if GateOpen(s) then Ok(s.(calls := s.calls[c := Locked], readers := s.readers + 1)) else Fail
    case Locked => Ok(s.(calls := s.calls[c := Entered], inflight := s.inflight + 1))
    case Entered => Ok(s.(calls := s.calls[c := Running], count := s.count + 1))
    case Running => Ok(s.(calls := s.calls[c := Leaving], inflight := s.inflight - 1))
    case Leaving => if s.readers > 0 then Ok(s.(calls := s.calls[c := Done], readers := s.readers - 1)) else Fail
    case Done => Fail
    case Rejected => Fail
  }

  /** One atomic step; Fail when it is not enabled. Nothing happens after the exit. */
  function Step(s: State, e: Event): Outcome<State> {
    if s.watchdog.Exited? then Fail
    else
      match e
      case Arrive => Ok(s.(calls := s.calls + [Arrived]))
      case Advance(c) => if c < |s.calls| then AdvanceCall(s, c) else Fail
      case Recycle => if s.draining then Ok(s) else Ok(s.(draining := true, watchdog := Flipped))
      case Spawn => if s.watchdog == Flipped then Ok(s.(watchdog := Selecting, writer := Started)) else Fail
      case WriterStep =>
        (match s.writer
         case Started => Ok(s.(writer := Pending))
         case Pending => if s.readers == 0 then Ok(s.(writer := Holding)) else Fail
         case Holding => Ok(s.(writer := Signalled))
         case _ => Fail)
      case SeeDrained => if s.watchdog == Selecting && s.writer == Signalled then Ok(s.(watchdog := Exited(true))) else Fail
      case Timeout => if s.watchdog == Selecting then Ok(s.(watchdog := Exited(false))) else Fail
  }

  /** The steps one after the other; none after one that is not enabled. */
  function RunFrom(s: State, events: seq<Event>): Outcome<State> {
    if events == [] then Ok(s)
    else
      match RunFrom(s, events[..|events| - 1])
      case Fail => Fail
      case Ok(s') => Step(s', events[|events| - 1])
  }

  /** A run of the protocol. */
  function Run(events: seq<Event>): Outcome<State> {
    RunFrom(INIT, events)
  }

  lemma RunFromOneMore(s: State, events: seq<Event>, e: Event)
    requires RunFrom(s, events).Ok?
    ensures RunFrom(s, events + [e]) == Step(RunFrom(s, events).value, e)
  {
    assert (events + [e])[..|events|] == events;
  }

  lemma {:induction false} RunFromAppend(s: State, a: seq<Event>, b: seq<Event>)
    requires RunFrom(s, a).Ok?
    ensures RunFrom(s, a + b) == RunFrom(RunFrom(s, a).value, b)
    decreases |b|
  {
    if b == [] {
      assert a + b == a;
    } else {
      var init, e := b[..|b| - 1], b[|b| - 1];
      RunFromAppend(s, a, init);
      assert a + b == (a + init) + [e];
      assert ((a + init) + [e])[..|a + init|] == a + init;
    }
  }

  lemma {:induction false} RunPrefix(s: State, a: seq<Event>, b: seq<Event>)
    requires RunFrom(s, a + b).Ok?
    ensures RunFrom(s, a).Ok?
    decreases |b|
  {
    if b == [] {
      assert a + b == a;
    } else {
      assert (a + b)[..|a + b| - 1] == a + b[..|b| - 1];
      RunPrefix(s, a, b[..|b| - 1]);
    }
  }

  // ---------------------------------------------------------------- counting calls

  function Sum(calls: seq<Pc>, w: Pc -> nat): nat {
    if calls == [] then 0 else Sum(calls[..|calls| - 1], w) + w(calls[|calls| - 1])
  }

  lemma {:induction false} SumUpdate(calls: seq<Pc>, w: Pc -> nat, c: nat, pc: Pc)
    requires c < |calls|
    ensures Sum(calls[c := pc], w) == Sum(calls, w) - w(calls[c]) + w(pc)
    decreases |calls|
  {
    var n := |calls| - 1;
    if c < n {
      SumUpdate(calls[..n], w, c, pc);
      assert calls[c := pc][..n] == calls[..n][c := pc];
    } else {
      assert calls[c := pc][..n] == calls[..n];
    }
  }

  lemma SumAppend(calls: seq<Pc>, w: Pc -> nat, pc: Pc)
    ensures Sum(calls + [pc], w) == Sum(calls, w) + w(pc)
  {
    assert (calls + [pc])[..|calls|] == calls;
  }

  lemma {:induction false} SumPositive(calls: seq<Pc>, w: Pc -> nat)
    ensures Sum(calls, w) > 0 <==> exists c :: 0 <= c < |calls| && w(calls[c]) > 0
    decreases |calls|
  {
    if calls != [] {
      var n := |calls| - 1;
      SumPositive(calls[..n], w);
      if exists c :: 0 <= c < n && w(calls[c]) > 0 {
        var c :| 0 <= c < n && w(calls[c]) > 0;
        assert calls[..n][c] == calls[c];
      }
      if Sum(calls[..n], w) > 0 {
        var c :| 0 <= c < n && w(calls[..n][c]) > 0;
        assert w(calls[c]) > 0;
      }
    }
  }

  const HOLDS: Pc -> nat := pc => if pc in {Locked, Entered, Running, Leaving} then 1 else 0
  const IN_FLIGHT: Pc -> nat := pc => if pc in {Entered, Running} then 1 else 0
  const COUNTED: Pc -> nat := pc => if pc in {Running, Leaving, Done} then 1 else 0
  const COMPLETED: Pc -> nat := pc => if pc == Done then 1 else 0

  // ---------------------------------------------------------------- safety

  /** Has the writer the gate? */
  predicate Drained(s: State) {
    s.writer == Holding || s.writer == Signalled
  }

  ghost predicate Inv(s: State) {
    && s.readers == Sum(s.calls, HOLDS)
    && s.inflight == Sum(s.calls, IN_FLIGHT)
    && s.count == Sum(s.calls, COUNTED)
    && (Drained(s) ==> s.readers == 0)
    && (s.draining <==> s.watchdog != Watching)
    && (s.writer != NotStarted <==> s.watchdog.Selecting? || s.watchdog.Exited?)
    && (s.watchdog == Exited(true) ==> s.writer == Signalled)
  }

  lemma ReadersFollow(s: State, c: nat)
    requires s.readers == Sum(s.calls, HOLDS) && c < |s.calls| && AdvanceCall(s, c).Ok?
    ensures AdvanceCall(s, c).value.readers == Sum(AdvanceCall(s, c).value.calls, HOLDS)
  {
    SumUpdate(s.calls, HOLDS, c, AdvanceCall(s, c).value.calls[c]);
  }

  lemma InflightFollows(s: State, c: nat)
    requires s.inflight == Sum(s.calls, IN_FLIGHT) && c < |s.calls| && AdvanceCall(s, c).Ok?
    ensures AdvanceCall(s, c).value.inflight == Sum(AdvanceCall(s, c).value.calls, IN_FLIGHT)
  {
    SumUpdate(s.calls, IN_FLIGHT, c, AdvanceCall(s, c).value.calls[c]);
  }

  lemma CountFollows(s: State, c: nat)
    requires s.count == Sum(s.calls, COUNTED) && c < |s.calls| && AdvanceCall(s, c).Ok?
    ensures AdvanceCall(s, c).value.count == Sum(AdvanceCall(s, c).value.calls, COUNTED)
  {
    SumUpdate(s.calls, COUNTED, c, AdvanceCall(s, c).value.calls[c]);
  }

  /** Nobody gets past the gate once the writer has it, and nobody inside is left to come out. */
  lemma GateStaysShut(s: State, c: nat)
    requires s.readers == Sum(s.calls, HOLDS) == 0 && Drained(s) && c < |s.calls| && AdvanceCall(s, c).Ok?
    ensures AdvanceCall(s, c).value.readers == 0
  {
  }

  lemma CallStepKeepsInv(s: State, c: nat)
    requires Inv(s) && c < |s.calls| && AdvanceCall(s, c).Ok?
    ensures Inv(AdvanceCall(s, c).value)
  {
    ReadersFollow(s, c);
    InflightFollows(s, c);
    CountFollows(s, c);
    if Drained(s) {
      GateStaysShut(s, c);
    }
  }

  /** A call that holds the gate is among the readers. */
  lemma HolderIsCounted(s: State, c: nat)
    requires Inv(s) && c < |s.calls| && HOLDS(s.calls[c]) > 0
    ensures s.readers > 0
  {
    SumPositive(s.calls, HOLDS);
  }

  lemma StepKeepsInv(s: State, e: Event)
    requires Inv(s) && Step(s, e).Ok?
    ensures Inv(Step(s, e).value)
  {
    match e
    case Advance(c) => CallStepKeepsInv(s, c);
    case Arrive =>
      SumAppend(s.calls, HOLDS, Arrived);
      SumAppend(s.calls, IN_FLIGHT, Arrived);
      SumAppend(s.calls, COUNTED, Arrived);
    case _ =>
  }

  lemma {:induction false} Reachable(events: seq<Event>)
    requires Run(events).Ok?
    ensures Inv(Run(events).value)
    decreases |events|
  {
    if events != [] {
      Reachable(events[..|events| - 1]);
      StepKeepsInv(Run(events[..|events| - 1]).value, events[|events| - 1]);
    }
  }

  lemma {:induction false} NobodyHolds(calls: seq<Pc>)
    requires Sum(calls, HOLDS) == 0
    ensures Sum(calls, IN_FLIGHT) == 0 && Sum(calls, COUNTED) == Sum(calls, COMPLETED)
    decreases |calls|
  {
    if calls != [] {
      NobodyHolds(calls[..|calls| - 1]);
    }
  }

  /**
   Drain safety: in every reachable interleaving, once the writer has the gate no call holds it or is
   in flight, the in-flight counter is 0, and the call counter is the number of completed calls.
   That includes calls that read `draining` as false before the flip.
   */
  lemma DrainedMeansQuiet(events: seq<Event>)
    requires Run(events).Ok? && Drained(Run(events).value)
    ensures var s := Run(events).value;
            && s.draining && s.inflight == 0 && s.readers == 0 && s.count == Sum(s.calls, COMPLETED)
            && forall c | 0 <= c < |s.calls| :: s.calls[c] in {Arrived, Checked, Done, Rejected}
  {
    Reachable(events);
    QuietInside(Run(events).value);
  }

  /** No call gets past the gate between `s` and a later `s'`: old calls stay done or outside, new ones stay outside. */
  ghost predicate NoneAdmitted(s: State, s': State) {
    && Drained(s') && s'.draining && s'.count == s.count && s'.inflight == s.inflight && |s.calls| <= |s'.calls|
    && forall c | 0 <= c < |s'.calls| ::
         if c < |s.calls| && s.calls[c] == Done then s'.calls[c] == Done else s'.calls[c] in {Arrived, Checked, Rejected}
  }

  lemma DrainedStep(s0: State, s: State, e: Event)
    requires Inv(s) && NoneAdmitted(s0, s) && Step(s, e).Ok?
    ensures NoneAdmitted(s0, Step(s, e).value)
  {
    if e.Advance? {
      assert s.calls[e.call] == Arrived;
    }
  }

  lemma RunOneMore(events: seq<Event>, e: Event)
    ensures Run(events + [e]) == if Run(events).Ok? then Step(Run(events).value, e) else Fail
  {
    assert (events + [e])[..|events|] == events;
  }

  /** From then on no call is ever admitted again, however the run goes on. */
  lemma {:induction false} NoneAdmittedAfterwards(events: seq<Event>, more: seq<Event>)
    requires Run(events).Ok? && Drained(Run(events).value) && Run(events + more).Ok?
    ensures NoneAdmitted(Run(events).value, Run(events + more).value)
    decreases |more|
  {
    if more == [] {
      assert events + more == events;
      DrainedMeansQuiet(events);
    } else {
      var init, e := more[..|more| - 1], more[|more| - 1];
      assert events + more == (events + init) + [e];
      RunOneMore(events + init, e);
      NoneAdmittedAfterwards(events, init);
      Reachable(events + init);
      DrainedStep(Run(events).value, Run(events + init).value, e);
    }
  }

  /** What is left to the recycler when it does not want to wait any more. */
  function GiveUp(s: State): seq<Event> {
    (if s.watchdog == Flipped then [Spawn] else []) + [Timeout]
  }

  /** However many calls are inside, the timeout ends the wait: whenever a drain is under way the process can exit undrained. */
  lemma TimeoutEndsTheWait(events: seq<Event>)
    requires Run(events).Ok? && Run(events).value.draining && !Run(events).value.watchdog.Exited?
    ensures Run(events + GiveUp(Run(events).value)).Ok?
    ensures var s, s' := Run(events).value, Run(events + GiveUp(Run(events).value)).value;
            s'.watchdog == Exited(false) && s'.calls == s.calls && s'.inflight == s.inflight && s'.count == s.count
  {
    Reachable(events);
    var s := Run(events).value;
    if s.watchdog == Flipped {
      assert GiveUp(s) == [Spawn] + [Timeout] && events + GiveUp(s) == events + [Spawn] + [Timeout];
      RunOneMore(events, Spawn);
      RunOneMore(events + [Spawn], Timeout);
    } else {
      assert GiveUp(s) == [Timeout];
      RunOneMore(events, Timeout);
    }
  }

  // ---------------------------------------------------------------- who is answered

  /** A call that has run to its end or has been turned away. */
  predicate Answered(pc: Pc) {
    pc == Done || pc == Rejected
  }

  /** Has the call read the flag and does it wait at a gate that is already shut? */
  predicate WaitsAtGate(s: State, c: nat) {
    c < |s.calls| && s.calls[c] == Checked && !GateOpen(s)
  }

  /** Who waits at the shut gate is the same in both states. */
  ghost predicate SameWaiting(s: State, s': State) {
    !GateOpen(s') && |s.calls| <= |s'.calls| && forall c: nat :: WaitsAtGate(s', c) <==> WaitsAtGate(s, c)
  }

  lemma WaitingStep(s: State, e: Event)
    requires Inv(s) && !GateOpen(s) && Step(s, e).Ok?
    ensures SameWaiting(s, Step(s, e).value)
  {
    var s' := Step(s, e).value;
    forall c: nat ensures WaitsAtGate(s', c) <==> WaitsAtGate(s, c) {
      if e.Advance? && c == e.call {
        assert s.draining;
      }
    }
  }

  /** Once the writer has announced itself, nobody joins those who wait at the gate and none of them ever gets on. */
  lemma {:induction false} WaitingForever(events: seq<Event>, more: seq<Event>)
    requires Run(events).Ok? && !GateOpen(Run(events).value) && Run(events + more).Ok?
    ensures SameWaiting(Run(events).value, Run(events + more).value)
    decreases |more|
  {
    if more == [] {
      assert events + more == events;
    } else {
      var init, e := more[..|more| - 1], more[|more| - 1];
      assert events + more == (events + init) + [e];
      RunOneMore(events + init, e);
      WaitingForever(events, init);
      Reachable(events + init);
      WaitingStep(Run(events + init).value, e);
    }
  }

  /** Why a call cannot go on: it has been answered, or it waits at the gate. */
  lemma StuckIff(s: State, c: nat)
    requires Inv(s) && !s.watchdog.Exited? && c < |s.calls|
    ensures Step(s, Advance(c)).Ok? <==> !Answered(s.calls[c]) && !WaitsAtGate(s, c)
  {
    if s.calls[c] == Leaving {
      HolderIsCounted(s, c);
    }
  }

  /** A call that has found the flag down gets through the gate exactly until the writer announces itself. */
  lemma PassesUntilAnnounced(s: State, c: nat)
    requires Inv(s) && !s.watchdog.Exited? && c < |s.calls| && s.calls[c] == Checked
    ensures Step(s, Advance(c)).Ok? <==> s.writer.NotStarted? || s.writer.Started?
    ensures Step(s, Advance(c)).Ok? ==> Step(s, Advance(c)).value.calls[c] == Locked
    ensures s.writer.NotStarted? || s.writer.Started? <==> !WaitsAtGate(s, c)
  {
  }

  /** With the writer at the gate nobody is inside: a call is unanswered exactly if it has not looked at the flag or waits at the gate. */
  lemma QuietInside(s: State)
    requires Inv(s) && Drained(s)
    ensures s.draining && s.inflight == 0 && s.readers == 0 && s.count == Sum(s.calls, COMPLETED)
    ensures forall c | 0 <= c < |s.calls| :: !Answered(s.calls[c]) <==> s.calls[c] == Arrived || WaitsAtGate(s, c)
  {
    NobodyHolds(s.calls);
    SumPositive(s.calls, HOLDS);
    forall c | 0 <= c < |s.calls| ensures s.calls[c] in {Arrived, Checked, Done, Rejected} {
      assert HOLDS(s.calls[c]) == 0;
    }
  }

  /**
   A drained exit answers every call but those still outside: a call gets no answer exactly if it has
   not looked at the flag yet or has looked, found it down, and waits at the gate.
   */
  lemma UnansweredAtDrainedExit(events: seq<Event>, c: nat)
    requires Run(events).Ok? && Run(events).value.watchdog == Exited(true) && c < |Run(events).value.calls|
    ensures var s := Run(events).value;
            && s.inflight == 0 && s.count == Sum(s.calls, COMPLETED)
            && (!Answered(s.calls[c]) <==> s.calls[c] == Arrived || WaitsAtGate(s, c))
  {
    Reachable(events);
    QuietInside(Run(events).value);
  }

  /**
   A drained exit cuts off a call that had passed the check if and only if that call was waiting
   when the writer announced itself.
   */
  lemma CutOffIffWaiting(events: seq<Event>, more: seq<Event>, c: nat)
    requires Run(events).Ok? && !GateOpen(Run(events).value)
    requires Run(events + more).Ok? && Run(events + more).value.watchdog == Exited(true)
    requires c < |Run(events + more).value.calls|
    ensures var s, s' := Run(events).value, Run(events + more).value;
            !Answered(s'.calls[c]) && s'.calls[c] != Arrived <==> WaitsAtGate(s, c)
  {
    WaitingForever(events, more);
    UnansweredAtDrainedExit(events + more, c);
  }

  lemma RunStep(events: seq<Event>, s: State, e: Event, s': State)
    requires Run(events) == Ok(s) && Step(s, e) == Ok(s')
    ensures Run(events + [e]) == Ok(s')
  {
    RunOneMore(events, e);
  }

  /** From the trigger to the exit, the writer's three steps in between and no other call's. */
  function WithDrain(events: seq<Event>): seq<Event> {
    events + [Recycle] + [Spawn] + [WriterStep] + [WriterStep] + [WriterStep] + [SeeDrained]
  }

  /** Two enabled steps one after the other. */
  lemma RunTwo(events: seq<Event>, s: State, e1: Event, s1: State, e2: Event, s2: State)
    requires Run(events) == Ok(s) && Step(s, e1) == Ok(s1) && Step(s1, e2) == Ok(s2)
    ensures Run(events + [e1] + [e2]) == Ok(s2)
  {
    RunStep(events, s, e1, s1);
    RunStep(events + [e1], s1, e2, s2);
  }

  /** The state of a drain whose writer stands at `w`. */
  function Draining(s: State, w: Writer): State {
    s.(draining := true, writer := w, watchdog := Selecting)
  }

  lemma Flips(s: State)
    requires !s.watchdog.Exited? && !s.draining
    ensures Step(s, Recycle) == Ok(s.(draining := true, watchdog := Flipped))
    ensures Step(s.(draining := true, watchdog := Flipped), Spawn) == Ok(Draining(s, Started))
  {
  }

  lemma WriterSteps(s: State)
    requires s.readers == 0
    ensures Step(Draining(s, Started), WriterStep) == Ok(Draining(s, Pending))
    ensures Step(Draining(s, Pending), WriterStep) == Ok(Draining(s, Holding))
    ensures Step(Draining(s, Holding), WriterStep) == Ok(Draining(s, Signalled))
    ensures Step(Draining(s, Signalled), SeeDrained) == Ok(Draining(s, Signalled).(watchdog := Exited(true)))
  {
  }

  /** Whenever no call is inside, the recycler can drain at once, and all calls at the gate stay there. */
  lemma DrainAtOnce(events: seq<Event>, s: State)
    requires Run(events) == Ok(s) && !s.draining && s.readers == 0
    ensures Run(WithDrain(events)) == Ok(Draining(s, Signalled).(watchdog := Exited(true)))
  {
    Reachable(events);
    Flips(s);
    WriterSteps(s);
    var es := events + [Recycle] + [Spawn];
    RunTwo(events, s, Recycle, s.(draining := true, watchdog := Flipped), Spawn, Draining(s, Started));
    RunTwo(es, Draining(s, Started), WriterStep, Draining(s, Pending), WriterStep, Draining(s, Holding));
    RunTwo(es + [WriterStep] + [WriterStep], Draining(s, Holding), WriterStep, Draining(s, Signalled),
      SeeDrained, Draining(s, Signalled).(watchdog := Exited(true)));
  }

  /** A single call that has found the flag down. */
  function OneChecked(): State {
    State([Checked], false, 0, 0, 0, NotStarted, Watching)
  }

  lemma OneCallChecks()
    ensures Run([] + [Arrive] + [Advance(0)]) == Ok(OneChecked())
  {
    var arrived := State([Arrived], false, 0, 0, 0, NotStarted, Watching);
    assert [] + [Arrived] == [Arrived] && [Arrived][0 := Checked] == [Checked];
    RunTwo([], INIT, Arrive, arrived, Advance(0), OneChecked());
  }

  /** So a drained exit can cut off a call: one that has found the flag down and not locked yet. */
  lemma DrainedExitCanCutOff()
    ensures Run(WithDrain([] + [Arrive] + [Advance(0)])) == Ok(Draining(OneChecked(), Signalled).(watchdog := Exited(true)))
    ensures WaitsAtGate(Draining(OneChecked(), Signalled).(watchdog := Exited(true)), 0)
  {
    OneCallChecks();
    DrainAtOnce([] + [Arrive] + [Advance(0)], OneChecked());
  }

  // ---------------------------------------------------------------- progress

  /** Atomic steps left to a call that is past the check. */
  const STEPS_LEFT: Pc -> nat := (pc: Pc) =>
    match pc
    case Checked => 5
    case Locked => 4
    case Entered => 3
    case Running => 2
    case Leaving => 1
    case _ => 0

  function DrainStepsLeft(s: State): nat {
    (match s.watchdog
     case Flipped => 6
     case Selecting => 1
     case _ => 0)
    + (match s.writer
       case Started => 3
       case Pending => 2
       case Holding => 1
       case _ => 0)
  }

  /** Steps that the drain can still take. */
  function Measure(s: State): nat {
    Sum(s.calls, STEPS_LEFT) + DrainStepsLeft(s)
  }

  /** Is `e`, in `s`, a step of the drain: of a call past the check, of the writer or of the watchdog? */
  predicate DrainStep(s: State, e: Event) {
    match e
    case Advance(c) => c < |s.calls| && STEPS_LEFT(s.calls[c]) > 0
    case Arrive => false
    case Recycle => false
    case _ => true
  }

  /** A call past the check has one step less to go; one that is not does not count. */
  lemma CallMeasure(s: State, c: nat)
    requires s.draining && c < |s.calls| && AdvanceCall(s, c).Ok?
    ensures var s' := AdvanceCall(s, c).value;
            && s'.draining && DrainStepsLeft(s') == DrainStepsLeft(s)
            && STEPS_LEFT(s'.calls[c]) == (if STEPS_LEFT(s.calls[c]) > 0 then STEPS_LEFT(s.calls[c]) - 1 else 0)
            && s'.calls == s.calls[c := s'.calls[c]]
  {
  }

  lemma OwnMeasure(s: State, e: Event)
    requires Inv(s) && s.draining && !e.Advance? && !e.Arrive? && Step(s, e).Ok?
    ensures var s' := Step(s, e).value;
            && s'.draining && s'.calls == s.calls
            && if DrainStep(s, e) then DrainStepsLeft(s') < DrainStepsLeft(s) else DrainStepsLeft(s') == DrainStepsLeft(s)
  {
  }

  /** While draining, every drain step lowers the measure, and nothing raises it, new calls included. */
  lemma MeasureDrops(s: State, e: Event)
    requires Inv(s) && s.draining && Step(s, e).Ok?
    ensures Step(s, e).value.draining
    ensures if DrainStep(s, e) then Measure(Step(s, e).value) < Measure(s) else Measure(Step(s, e).value) == Measure(s)
  {
    match e
    case Advance(c) =>
      CallMeasure(s, c);
      SumUpdate(s.calls, STEPS_LEFT, c, Step(s, e).value.calls[c]);
    case Arrive => SumAppend(s.calls, STEPS_LEFT, Arrived);
    case _ => OwnMeasure(s, e);
  }

  /** Before the exit, and without any help from the timeout or from new calls, some drain step can always be taken. */
  lemma NeverStuck(s: State) returns (e: Event)
    requires Inv(s) && s.draining && !s.watchdog.Exited?
    ensures !e.Timeout? && DrainStep(s, e) && Step(s, e).Ok?
  {
    if s.watchdog == Flipped {
      e := Spawn;
    } else if s.writer == Signalled {
      e := SeeDrained;
    } else if s.writer == Pending && s.readers > 0 {
      SumPositive(s.calls, HOLDS);
      var c :| 0 <= c < |s.calls| && HOLDS(s.calls[c]) > 0;
      e := Advance(c);
    } else {
      e := WriterStep;
    }
  }

  /** The drain steps taken along `more`, starting after `events`. */
  function DrainSteps(events: seq<Event>, more: seq<Event>): nat {
    if more == [] then 0
    else
      var init, e := more[..|more| - 1], more[|more| - 1];
      DrainSteps(events, init) + match Run(events + init) case Fail => 0 case Ok(s) => if DrainStep(s, e) then 1 else 0
  }

  /** So a drain takes at most as many steps as its measure says at the flip, whatever calls arrive meanwhile. */
  lemma {:induction false} DrainIsBounded(events: seq<Event>, more: seq<Event>)
    requires Run(events).Ok? && Run(events).value.draining && Run(events + more).Ok?
    ensures Run(events + more).value.draining
    ensures DrainSteps(events, more) + Measure(Run(events + more).value) <= Measure(Run(events).value)
    decreases |more|
  {
    if more == [] {
      assert events + more == events;
    } else {
      var init, e := more[..|more| - 1], more[|more| - 1];
      assert events + more == (events + init) + [e];
      RunOneMore(events + init, e);
      DrainIsBounded(events, init);
      Reachable(events + init);
      MeasureDrops(Run(events + init).value, e);
    }
  }
}
