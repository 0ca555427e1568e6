/**
 The recycler object of recycle.go. Each atomic operation on its shared fields is a method that keeps
 the invariant of the protocol in Drain; begin, end and recycle are the sequences that one goroutine
 performs, recycle's with the other goroutines stepping in between.
 */
module Recycling {
  import opened JsonTree
  import opened Drain

  class Recycler {
    var draining: bool
    var inflight: int
    var count: nat
    /** The gate: readers holding it, and the writer's claim to it. */
    var readers: nat
    var writer: Writer
    /** Control points of the goroutines: one per call, and the watchdog's. */
    var calls: seq<Pc>
    var watchdog: Watchdog

    ghost function View(): State
      reads this
    {
      State(calls, draining, inflight, count, readers, writer, watchdog)
    }

    /** The fields agree with where the goroutines stand. */
    ghost predicate Valid()
      reads this
    {
      Inv(View())
    }

    constructor ()
      ensures View() == INIT && Valid()
    {
      draining, inflight, count, readers, writer := false, 0, 0, 0, NotStarted;
      calls, watchdog := [], Watching;
    }

    /**
     One atomic step of the call `c`: r.draining.Load, gate.RLock, inflight.Add(1), count.Add(1),
     inflight.Add(-1) or gate.RUnlock (recycle.go:136-141 and 150-151), whichever is next. Only RLock can
     have to wait; RUnlock always finds its own reader at the gate.
     */
    method CallStep(c: nat) returns (moved: bool)
      requires Valid() && !watchdog.Exited? && c < |calls|
      modifies this
      ensures Valid() && watchdog == old(watchdog)
      ensures moved <==> !Answered(old(calls[c])) && !WaitsAtGate(old(View()), c)
      ensures if moved then Step(old(View()), Advance(c)) == Ok(View()) else View() == old(View())
    {
      ghost var was := View();
      moved := true;
      match calls[c] {
        case Arrived => calls := calls[c := if draining then Rejected else Checked];
        case Checked =>
          if writer != NotStarted && writer != Started {
            return false;
          }
          readers, calls := readers + 1, calls[c := Locked];
        case Locked => inflight, calls := inflight + 1, calls[c := Entered];
        case Entered => count, calls := count + 1, calls[c := Running];
        case Running => inflight, calls := inflight - 1, calls[c := Leaving];
        case Leaving =>
          HolderIsCounted(was, c);
          readers, calls := readers - 1, calls[c := Done];
        case Done => return false;
        case Rejected => return false;
      }
      CallStepKeepsInv(was, c);
      assert Ok(View()) == AdvanceCall(was, c);
    }

    /** r.draining.CompareAndSwap(false, true) (recycle.go:206): only the first caller wins. */
    method Flip() returns (won: bool)
      requires Valid() && !watchdog.Exited?
      modifies this
      ensures Valid() && Step(old(View()), Event.Recycle) == Ok(View()) && won == !old(draining)
    {
      won := !draining;
      if won {
        draining, watchdog := true, Flipped;
      }
    }

    /** The writer goroutine's next step (recycle.go:213-216); it must wait while readers hold the gate. */
    method WriterGoesOn() returns (moved: bool)
      requires Valid() && !watchdog.Exited?
      modifies this
      ensures Valid() && watchdog == old(watchdog)
      ensures moved <==> Step(old(View()), WriterStep).Ok?
      ensures if moved then Step(old(View()), WriterStep) == Ok(View()) else View() == old(View())
    {
      moved := true;
      match writer
      case Started => writer := Pending;
      case Pending =>
        if readers > 0 {
          return false;
        }
        writer := Holding;
      case Holding => writer := Signalled;
      case _ => moved := false;
    }

    /** What may happen while recycle waits in its select: a call arrives or goes on, or the writer does. */
    method Meanwhile(e: Event) returns (moved: bool)
      requires Valid() && !watchdog.Exited? && IsOthers(e)
      modifies this
      ensures Valid() && watchdog == old(watchdog)
      ensures moved <==> Step(old(View()), e).Ok?
      ensures if moved then Step(old(View()), e) == Ok(View()) else View() == old(View())
    {
      moved := false;
      match e
      case Arrive =>
        StepKeepsInv(View(), Arrive);
        calls := calls + [Arrived];
        moved := true;
      case WriterStep => moved := WriterGoesOn();
      case Advance(c) =>
        if c < |calls| {
          StuckIff(View(), c);
          moved := CallStep(c);
        }
      case _ =>
    }

    /** The first recycler starts the writer goroutine (recycle.go:213). */
    method SpawnWriter()
      requires Valid() && watchdog == Flipped
      modifies this
      ensures Valid() && watchdog == Selecting && Step(old(View()), Spawn) == Ok(View())
    {
      StepKeepsInv(View(), Spawn);
      watchdog, writer := Selecting, Started;
    }

    /**
     What the other goroutines do while the first recycler is between two of its own steps; entries of
     the schedule that are not possible are skipped.
     */
    method Wait(schedule: seq<Event>) returns (ghost trace: seq<Event>)
      requires Valid() && !watchdog.Exited? && forall i | 0 <= i < |schedule| :: IsOthers(schedule[i])
      modifies this
      ensures Valid() && watchdog == old(watchdog) && RunFrom(old(View()), trace) == Ok(View())
      ensures View() == Skipping(old(View()), schedule)
    {
      ghost var was := View();
      trace := [];
      for i := 0 to |schedule|
        invariant Valid() && watchdog == old(watchdog) && RunFrom(was, trace) == Ok(View())
        invariant View() == Skipping(was, schedule[..i])
      {
        assert schedule[..i + 1][..i] == schedule[..i];
        RunFromOneMore(was, trace, schedule[i]);
        var moved := Meanwhile(schedule[i]);
        if moved {
          trace := trace + [schedule[i]];
        }
      }
      assert schedule[..|schedule|] == schedule;
    }

    /** The select (recycle.go:218-225) takes the closed channel or the timer; with both ready, either. */
    method Leave(timerFirst: bool) returns (drained: bool)
      requires Valid() && watchdog == Selecting
      modifies this`watchdog
      ensures Valid() && watchdog == Exited(drained)
      ensures Step(old(View()), if drained then SeeDrained else Timeout) == Ok(View())
      ensures drained <==> writer == Signalled && !timerFirst
    {
      drained := writer == Signalled && !timerFirst;
      watchdog := Exited(drained);
    }

    /** From the flip to the end of the select, the other goroutines stepping before and after the writer starts. */
    method GoOn(before: seq<Event>, after: seq<Event>) returns (ghost trace: seq<Event>)
      requires Valid() && watchdog == Flipped
      requires (forall i | 0 <= i < |before| :: IsOthers(before[i])) && forall i | 0 <= i < |after| :: IsOthers(after[i])
      modifies this
      ensures Valid() && watchdog == Selecting && View() == Waited(old(View()), before, after)
      ensures RunFrom(old(View()), trace) == Ok(View())
    {
      ghost var was := View();
      trace := Wait(before);
      RunFromOneMore(was, trace, Spawn);
      SpawnWriter();
      trace := trace + [Spawn];
      ghost var others := Wait(after);
      RunFromAppend(was, trace, others);
      trace := trace + others;
    }

    /**
     recycle (recycle.go:205-226). Only the first recycler goes on: it flips the flag, starts the writer
     and waits until the channel is closed or the timer fires. Two schedules say what the other goroutines
     do meanwhile, between the flip and the start of the writer and from there to the exit. The ghost
     result is the run of the protocol that this has been. A drained exit leaves nobody inside, and a call
     unanswered exactly if it has not looked at the flag or waits at the gate.
     */
    method Recycle(before: seq<Event>, after: seq<Event>, timerFirst: bool) returns (drained: bool, ghost trace: seq<Event>)
      requires Valid() && !watchdog.Exited?
      requires (forall i | 0 <= i < |before| :: IsOthers(before[i])) && forall i | 0 <= i < |after| :: IsOthers(after[i])
      modifies this
      ensures Valid() && RunFrom(old(View()), trace) == Ok(View())
      ensures old(draining) ==> View() == old(View()) && !drained
      ensures !old(draining) ==>
        var w := Waited(FlagUp(old(View())), before, after);
        View() == w.(watchdog := Exited(drained)) && (drained <==> w.writer == Signalled && !timerFirst)
      ensures drained ==> inflight == 0 && readers == 0 && count == Sum(calls, COMPLETED)
      ensures drained ==> forall c | 0 <= c < |calls| :: !Answered(calls[c]) <==> calls[c] == Arrived || WaitsAtGate(View(), c)
    {
      ghost var was := View();
      var won := Flip();
      if !won {
        return false, [];
      }
      RunFromOneMore(was, [], Event.Recycle);
      trace := GoOn(before, after);
      RunFromAppend(was, [] + [Event.Recycle], trace);
      trace := [] + [Event.Recycle] + trace;
      drained := Leave(timerFirst);
      ghost var last := if drained then SeeDrained else Timeout;
      RunFromOneMore(was, trace, last);
      trace := trace + [last];
      if drained {
        QuietInside(View());
      }
    }
  }

  /** The steps one after the other, those that are not enabled left out. */
  function Skipping(s: State, events: seq<Event>): State {
    if events == [] then s
    else
      var s' := Skipping(s, events[..|events| - 1]);
      match Step(s', events[|events| - 1])
      case Fail => s'
      case Ok(next) => next
  }

  function FlagUp(s: State): State {
    s.(draining := true, watchdog := Flipped)
  }

  /** From the flip to the end of the select: others step, the writer is started, others step again. */
  function Waited(s: State, before: seq<Event>, after: seq<Event>): State {
    Skipping(Skipping(s, before).(watchdog := Selecting, writer := Started), after)
  }

  /** Of steps that are all enabled none is left out. */
  lemma {:induction false} SkippingIsRun(s: State, events: seq<Event>)
    requires RunFrom(s, events).Ok?
    ensures Skipping(s, events) == RunFrom(s, events).value
    decreases |events|
  {
    if events != [] {
      SkippingIsRun(s, events[..|events| - 1]);
    }
  }

  /**
   A schedule that fits is carried out to the letter: when the flip, the steps before, the start of
   the writer and the steps after are a run of the protocol, the first recycler is where that run ends.
   */
  lemma WaitedIsRun(s: State, before: seq<Event>, after: seq<Event>)
    requires !s.draining && !s.watchdog.Exited?
    requires RunFrom(s, [] + [Event.Recycle] + before + [Spawn] + after).Ok?
    ensures Waited(FlagUp(s), before, after) == RunFrom(s, [] + [Event.Recycle] + before + [Spawn] + after).value
  {
    var flip := [] + [Event.Recycle];
    RunPrefix(s, flip + before + [Spawn], after);
    RunPrefix(s, flip + before, [Spawn]);
    RunFromOneMore(s, [], Event.Recycle);
    RunFromAppend(s, flip, before);
    SkippingIsRun(FlagUp(s), before);
    RunFromOneMore(s, flip + before, Spawn);
    RunFromAppend(s, flip + before + [Spawn], after);
    SkippingIsRun(RunFrom(s, flip + before + [Spawn]).value, after);
  }

  /** Is it a step of the other goroutines: of a call, or of the writer? */
  predicate IsOthers(e: Event) {
    e.Arrive? || e.Advance? || e.WriterStep?
  }

  /** The protocol's state once the call `c` has been let in, or turned away. */
  function LetIn(s: State, c: nat): State
    requires c < |s.calls|
  {
    s.(calls := s.calls[c := Running], inflight := s.inflight + 1, count := s.count + 1, readers := s.readers + 1)
  }

  function TurnedAway(s: State, c: nat): State
    requires c < |s.calls|
  {
    s.(calls := s.calls[c := Rejected])
  }

  /** And once it has left. */
  function LetOut(s: State, c: nat): State
    requires c < |s.calls|
  {
    s.(calls := s.calls[c := Done], inflight := s.inflight - 1, readers := if s.readers > 0 then s.readers - 1 else 0)
  }

  /** Is the call `c` about to enter begin, in a process that has not exited? */
  ghost predicate AtTheDoor(r: Recycler?, c: nat)
    reads r
  {
    r != null ==> r.Valid() && !r.watchdog.Exited? && c < |r.calls| && r.calls[c] == Arrived
  }

  /**
   begin (recycle.go:132-143) with nobody interleaving: admitted exactly when the flag is down, and then
   the gate is open. A nil recycler admits every call.
   */
  method Begin(r: Recycler?, c: nat) returns (admitted: bool)
    requires AtTheDoor(r, c)
    modifies r
    ensures r == null ==> admitted
    ensures r != null ==> r.Valid() && admitted == !old(r.draining)
    ensures r != null ==> r.View() == if admitted then LetIn(old(r.View()), c) else TurnedAway(old(r.View()), c)
  {
    if r == null {
      return true;
    }
    var moved := r.CallStep(c);
    if r.calls[c] == Rejected {
      return false;
    }
    moved := r.CallStep(c);
    moved := r.CallStep(c);
    moved := r.CallStep(c);
    admitted := true;
  }

  /** Is the call `c` running, in a process that has not exited? */
  ghost predicate InCall(r: Recycler?, c: nat)
    reads r
  {
    r != null ==> r.Valid() && !r.watchdog.Exited? && c < |r.calls| && r.calls[c] == Running
  }

  /** end (recycle.go:146-152) with nobody interleaving. */
  method End(r: Recycler?, c: nat)
    requires InCall(r, c)
    modifies r
    ensures r != null ==> r.Valid() && r.View() == LetOut(old(r.View()), c)
  {
    if r == null {
      return;
    }
    var moved := r.CallStep(c);
    moved := r.CallStep(c);
  }

  // ---------------------------------------------------------------- the watchdog

  /** The limits of recycleConfig; 0 disables one. */
  datatype Limits = Limits(reconciles: nat, lifetime: int, rss: nat)

  /** What one tick of the watchdog reads; the resident set size may be unreadable. */
  datatype Reading = Reading(count: nat, age: int, rss: Outcome<nat>)

  predicate Enabled(l: Limits) {
    l.rss > 0 || l.reconciles > 0 || l.lifetime > 0
  }

  /** The watchdog would recycle on this reading. */
  predicate Fires(l: Limits, r: Reading) {
    || (l.reconciles > 0 && r.count >= l.reconciles)
    || (l.lifetime > 0 && r.age >= l.lifetime)
    || (l.rss > 0 && r.rss.Ok? && r.rss.value >= l.rss)
  }

  /** `enabled` (recycle.go:91-93) says exactly whether the watchdog can ever fire. */
  lemma EnabledIff(l: Limits)
    ensures Enabled(l) <==> exists r :: Fires(l, r)
  {
    if Enabled(l) {
      assert Fires(l, Reading(l.reconciles, l.lifetime, Ok(l.rss)));
    }
  }

  /** shouldRecycle (recycle.go:180-201): the triggers in order, the first that holds gives the reason. */
  method ShouldRecycle(l: Limits, r: Reading) returns (reason: Option<string>)
    ensures reason.Some? <==> Fires(l, r)
    ensures reason.Some? <==>
      || (l.reconciles > 0 && r.count >= l.reconciles)
      || (l.lifetime > 0 && r.age >= l.lifetime)
      || (l.rss > 0 && r.rss.Ok? && r.rss.value >= l.rss)
  {
    if l.reconciles > 0 && r.count >= l.reconciles {
      return Some("reconcile count");
    }
    if l.lifetime > 0 && r.age >= l.lifetime {
      return Some("lifetime");
    }
    if l.rss > 0 {
      if r.rss.Fail? {
        return None;
      }
      if r.rss.value >= l.rss {
        return Some("RSS");
      }
    }
    return None;
  }

  /** watch (recycle.go:167-176) over the ticks so far: the first one that fires, if any, and none after it. */
  method Watch(l: Limits, ticks: seq<Reading>) returns (fired: Option<nat>)
    ensures fired.Some? ==> fired.value < |ticks| && Fires(l, ticks[fired.value]) && forall i | 0 <= i < fired.value :: !Fires(l, ticks[i])
    ensures fired.None? ==> forall i | 0 <= i < |ticks| :: !Fires(l, ticks[i])
  {
    for i := 0 to |ticks|
      invariant forall j | 0 <= j < i :: !Fires(l, ticks[j])
    {
      var reason := ShouldRecycle(l, ticks[i]);
      if reason.Some? {
        return Some(i);
      }
    }
    return None;
  }
}
