/** What makes runsolver stop the solver, over whole runs: an exceeded limit, a signal or the end of the child,
    and nothing else. */
module StopCauses {
  import opened SharedFlags
  import opened StopProtocol
  import opened Wrappers

  /** The timer thread finds a limit exceeded. */
  predicate TripsLimit(s: State, e: Event) {
    e == TimerStep(true) && s.timer.TLimit? && s.calls.timer.Outside?
  }

  predicate Cause(s: State, e: Event) {
    e.ChildExits? || e.TermSignal? || TripsLimit(s, e)
  }

  /** What a cause leaves behind for good. */
  predicate Caused(s: State) {
    !s.world.alive || !s.handler.HSigwait? || s.calls.timer.CompareAndSet? || s.flags.invoked
  }

  lemma CauseShows(s: State, e: Event)
    requires Cause(s, e) && Step(s, e).Some?
    ensures Caused(Step(s, e).value)
    ensures TripsLimit(s, e) ==> Step(s, e).value.calls.timer.CompareAndSet?
  {}

  /** A call of stopSolver that the timer thread has begun ends only with the compare-and-set won,
      by it or before it. */
  lemma StaysCaused(s: State, e: Event)
    requires Step(s, e).Some?
    ensures s.calls.timer.CompareAndSet? || s.flags.invoked
            ==> Step(s, e).value.calls.timer.CompareAndSet? || Step(s, e).value.flags.invoked
    ensures Caused(s) ==> Caused(Step(s, e).value)
  {
    hide NextLimit;
    if !IsExternal(e) && !s.calls.Of(Caller(e)).Outside? {
      CallChanges(s, Caller(e));
      CallLeaves(s, Caller(e));
    } else {
      StepIsQuiet(s, e);
      assert EntersAtMost(s, Step(s, e).value, TimerThread);
    }
  }

  lemma {:induction false} StaysCausedInRun(states: seq<State>, events: seq<Event>, i: nat, j: nat)
    requires Run(states, events) && i < j < |states| && Cause(states[i], events[i])
    ensures Caused(states[j])
    ensures TripsLimit(states[i], events[i]) ==> states[j].calls.timer.CompareAndSet? || states[j].flags.invoked
  {
    hide Step, Caused;
    assert Step(states[j - 1], events[j - 1]) == Some(states[j]);
    if i == j - 1 {
      CauseShows(states[i], events[i]);
    } else {
      StaysCausedInRun(states, events, i, j - 1);
      StaysCaused(states[j - 1], events[j - 1]);
    }
  }

  /** At rest after a cause, the solver has been stopped. */
  lemma RestAfterCause(s: State)
    requires Inv(s) && Caused(s) && AtRest(s)
    ensures s.flags.invoked && s.flags.shutdown && TermSweep in s.past.log
  {
    hide OneWinner, RunningFlag, Log;
    assert Step(s, MainStep).None? && Step(s, TimerStep(true)).None? && Step(s, HandlerStep).None?;
    assert s.flags.invoked;
    if !s.flags.shouldExecute {
      var e := WinnerCanStep(s);
      assert false;
    }
    ReleasedIsShutdown(s);
    RestAfterShutdown(s);
  }

  lemma ReleasedIsShutdown(s: State)
    requires Inv(s)
    ensures s.flags.shouldExecute ==> s.flags.shutdown
  {}

  /** A limit that the timer thread finds exceeded stops the solver: from then on, whenever the thread is out of
      stopSolver, the compare-and-set has been won; and the threads do not come to rest before SIGTERM is sent. */
  lemma ExceededLimitStops(states: seq<State>, events: seq<Event>, i: nat, j: nat)
    requires Run(states, events) && IsStart(states[0]) && i < j < |states| && TripsLimit(states[i], events[i])
    ensures states[j].calls.timer.Outside? ==> states[j].flags.invoked
    ensures AtRest(states[j]) ==> TermSweep in states[j].past.log
  {
    hide Step, Inv, AtRest;
    StaysCausedInRun(states, events, i, j);
    StartIsInv(states[0]);
    RunKeepsInv(states, events, j);
    if AtRest(states[j]) { RestAfterCause(states[j]); }
  }

  /** Nothing has been done to stop the solver. */
  ghost predicate Untouched(s: State) {
    && s.world.alive && s.handler.HSigwait? && Place(s.main) <= 5
    && s.calls == Calls(Outside, Outside, Outside, Outside)
    && !s.flags.invoked && !s.flags.shutdown && !s.flags.shouldExecute
    && s.past.wins == [] && s.past.log == []
  }

  lemma StaysUntouched(s: State, e: Event)
    requires Inv(s) && Untouched(s) && !Cause(s, e) && Step(s, e).Some?
    ensures Untouched(Step(s, e).value)
  {
    hide OneWinner, RunningFlag, Callers;
    match e
    case MainStep => match s.main { case MWait4 => case _ => }
    case TimerStep(_) => match s.timer { case TLimit(_) => case _ => }
    case HandlerStep =>
    case StopStep(_) => match s.stop { case STestExecute => case _ => }
    case _ =>
  }

  /** Without a cause, nothing stops the solver: no flag is raised, no call begun and no signal sent. */
  lemma {:induction false} NothingStopsWithoutCause(states: seq<State>, events: seq<Event>, n: nat)
    requires Run(states, events) && IsStart(states[0]) && n < |states|
    requires forall i :: 0 <= i < n ==> !Cause(states[i], events[i])
    ensures Untouched(states[n])
  {
    hide Step, Inv, Cause;
    if n > 0 {
      NothingStopsWithoutCause(states, events, n - 1);
      StartIsInv(states[0]);
      RunKeepsInv(states, events, n - 1);
      assert Step(states[n - 1], events[n - 1]) == Some(states[n]);
      StaysUntouched(states[n - 1], events[n - 1]);
    }
  }

  /** The shutdown flag has a cause; and at rest, SIGTERM has been sent if and only if there was one. */
  lemma StoppedIffCaused(states: seq<State>, events: seq<Event>, n: nat)
    requires Run(states, events) && IsStart(states[0]) && n < |states|
    ensures states[n].flags.shutdown ==> exists i :: 0 <= i < n && Cause(states[i], events[i])
    ensures AtRest(states[n])
            ==> (TermSweep in states[n].past.log <==> exists i :: 0 <= i < n && Cause(states[i], events[i]))
  {
    hide Step, Inv, Cause, AtRest;
    if i :| 0 <= i < n && Cause(states[i], events[i]) {
      StaysCausedInRun(states, events, i, n);
      StartIsInv(states[0]);
      RunKeepsInv(states, events, n);
      if AtRest(states[n]) { RestAfterCause(states[n]); }
    } else {
      NothingStopsWithoutCause(states, events, n);
    }
  }
}

/** The order in which a thread passes through its places, over whole runs. */
module StopOrder {
  import opened SharedFlags
  import opened StopProtocol
  import opened Wrappers

  // ---- main ----

  lemma MainMovesByOne(s: State, e: Event)
    requires Step(s, e).Some?
    ensures var s' := Step(s, e).value;
            s'.main == s.main || (e.MainStep? && Place(s'.main) == Place(s.main) + 1)
  {
    hide NextLimit;
    if !IsExternal(e) && !s.calls.Of(Caller(e)).Outside? {
      CallLeaves(s, Caller(e));
    }
  }

  lemma PlacesDiffer(a: Main, b: Main)
    requires Place(a) == Place(b)
    ensures a == b
  {}

  /** Main skips nothing: before it is at a place it has been, and made a step, at every earlier one. */
  lemma {:induction false} MainSkipsNothing(states: seq<State>, events: seq<Event>, n: nat, p: Main) returns (i: nat)
    requires Run(states, events) && IsStart(states[0]) && n < |states|
    requires Place(p) < Place(states[n].main)
    ensures i < n && states[i].main == p && events[i].MainStep?
  {
    hide Step, Place;
    StartsAtFork(states[0], p);
    assert n > 0;
    assert Step(states[n - 1], events[n - 1]) == Some(states[n]);
    MainMovesByOne(states[n - 1], events[n - 1]);
    if Place(p) < Place(states[n - 1].main) {
      i := MainSkipsNothing(states, events, n - 1, p);
    } else {
      PlacesDiffer(states[n - 1].main, p);
      i := n - 1;
    }
  }

  lemma StartsAtFork(s: State, p: Main)
    requires IsStart(s)
    ensures Place(s.main) <= Place(p)
  {}

  // ---- the timer thread ----

  /** The test of a limit between states i and j. */
  ghost predicate Tested(states: seq<State>, events: seq<Event>, i: nat, j: nat, limit: Limit)
    requires |states| == |events| + 1 && j < |states|
  {
    exists k :: i < k < j && states[k].timer == TLimit(limit) && events[k].TimerStep? && states[k].calls.timer.Outside?
  }

  lemma TimerMoves(s: State, e: Event)
    requires Step(s, e).Some?
    ensures var t := Step(s, e).value.timer;
            && (t == s.timer || (e.TimerStep? && s.calls.timer.Outside?) || (e.MainStep? && s.main.MCreateTimer?))
            && (e == TimerStep(false) && s.timer.TRead? && s.calls.timer.Outside? ==> t == TLimit(CpuTime))
            && (e.TimerStep? && s.timer == TLimit(CpuTime) ==> t == TLimit(WallClock) || t == s.timer)
            && (e.TimerStep? && s.timer == TLimit(WallClock) ==> t == TLimit(VSize) || t == s.timer)
  {
    if !IsExternal(e) && !s.calls.Of(Caller(e)).Outside? {
      CallLeaves(s, Caller(e));
    } else {
      match e
      case MainStep => match s.main { case MCreateTimer => case _ => }
      case TimerStep(_) => match s.timer { case TLimit(_) => case _ => }
      case HandlerStep =>
      case StopStep(_) => match s.stop { case SLimit(_) => case _ => }
      case _ =>
    }
  }

  /** A sample that finds the root process tests all three limits, one after the other, before the timer thread does
      anything else. */
  lemma {:induction false} SampleTestsAllLimits(states: seq<State>, events: seq<Event>, i: nat, j: nat)
    requires Run(states, events) && IsStart(states[0]) && i < j < |states|
    requires states[i].timer.TRead? && states[i].calls.timer.Outside? && events[i] == TimerStep(false)
    ensures states[j].timer != TLimit(CpuTime) ==> Tested(states, events, i, j, CpuTime)
    ensures states[j].timer != TLimit(CpuTime) && states[j].timer != TLimit(WallClock)
            ==> Tested(states, events, i, j, WallClock)
    ensures !states[j].timer.TLimit? ==> Tested(states, events, i, j, VSize)
  {
    hide Step;
    var s, e := states[j - 1], events[j - 1];
    assert Step(s, e) == Some(states[j]);
    TimerMoves(s, e);
    StartIsInv(states[0]);
    RunKeepsInv(states, events, j - 1);
    if i < j - 1 {
      SampleTestsAllLimits(states, events, i, j - 1);
      TestedLater(states, events, i, j);
      if s.timer != states[j].timer && s.timer.TLimit? {
        assert Tested(states, events, i, j, s.timer.limit) by { assert states[j - 1].timer == TLimit(s.timer.limit); }
        assert s.timer.limit.VSize? || states[j].timer.TLimit?;
      } else {
        assert s.timer.TLimit? || Tested(states, events, i, j - 1, VSize);
      }
    }
  }

  lemma TestedLater(states: seq<State>, events: seq<Event>, i: nat, j: nat)
    requires |states| == |events| + 1 && 0 < j < |states|
    ensures forall limit :: Tested(states, events, i, j - 1, limit) ==> Tested(states, events, i, j, limit)
  {}

  lemma ReadComesAfterSleep(s: State, e: Event)
    requires Inv(s) && Step(s, e).Some?
    ensures var t := Step(s, e).value.timer;
            && (t.TTestShutdown? && !s.timer.TTestShutdown? ==> s.timer.TSleep? && e.TimerStep?)
            && (t.TRead? && !s.timer.TRead? ==> s.timer.TTestShutdown?)
  {
    hide OneWinner, RunningFlag, Log, NextLimit;
    if !IsExternal(e) && !s.calls.Of(Caller(e)).Outside? {
      CallLeaves(s, Caller(e));
    } else {
      match e
      case MainStep => match s.main { case MCreateTimer => case _ => }
      case TimerStep(_) => match s.timer { case TLimit(_) => case _ => }
      case HandlerStep =>
      case StopStep(_) => match s.stop { case SLimit(_) => case _ => }
      case _ =>
    }
  }

  /** The timer thread sleeps before each sample: since the sleep it has only looked at the shutdown flag. */
  lemma {:induction false} SleepComesBeforeSample(states: seq<State>, events: seq<Event>, n: nat) returns (i: nat)
    requires Run(states, events) && IsStart(states[0]) && n < |states|
    requires states[n].timer.TRead? || states[n].timer.TTestShutdown?
    ensures i < n && states[i].timer.TSleep? && events[i].TimerStep?
    ensures forall k :: i < k <= n ==> states[k].timer.TTestShutdown? || states[k].timer.TRead?
  {
    hide Step, Inv;
    assert n > 0;
    assert Step(states[n - 1], events[n - 1]) == Some(states[n]);
    StartIsInv(states[0]);
    RunKeepsInv(states, events, n - 1);
    ReadComesAfterSleep(states[n - 1], events[n - 1]);
    if states[n - 1].timer.TSleep? {
      i := n - 1;
    } else {
      i := SleepComesBeforeSample(states, events, n - 1);
    }
  }

  /** The timer thread has slept and not yet sampled again, or it has ended. */
  predicate BeforeSample(t: Timer) { t.TTestShutdown? || t.TRead? || t.TAnnounce? || t.TExited? }

  /** The timer thread has read the processes between states i and j. */
  ghost predicate Sampled(states: seq<State>, events: seq<Event>, i: nat, j: nat)
    requires |states| == |events| + 1 && j < |states|
  {
    exists k :: i < k < j && states[k].timer.TRead? && events[k].TimerStep?
  }

  lemma SampleMoves(s: State, e: Event)
    requires Inv(s) && Step(s, e).Some?
    ensures var t := Step(s, e).value.timer;
            && (BeforeSample(s.timer) && !BeforeSample(t) ==> s.timer.TRead? && e.TimerStep?)
            && (s.timer.TSleep? && e.TimerStep? ==> BeforeSample(t))
  {
    hide OneWinner, RunningFlag, Log, NextLimit;
    if !IsExternal(e) && !s.calls.Of(Caller(e)).Outside? {
      CallLeaves(s, Caller(e));
    } else {
      match e
      case MainStep => match s.main { case MCreateTimer => case _ => }
      case TimerStep(_) => match s.timer { case TLimit(_) => case _ => }
      case HandlerStep =>
      case StopStep(_) => match s.stop { case SLimit(_) => case _ => }
      case _ =>
    }
  }

  /** The timer thread never sleeps twice without a sample in between, nor goes round its loop without one. */
  lemma {:induction false} SampleComesBetweenSleeps(states: seq<State>, events: seq<Event>, i: nat, j: nat)
    requires Run(states, events) && IsStart(states[0]) && i < j < |states|
    requires states[i].timer.TSleep? && events[i].TimerStep? && !BeforeSample(states[j].timer)
    ensures Sampled(states, events, i, j)
  {
    hide Step, Inv, BeforeSample;
    assert Step(states[j - 1], events[j - 1]) == Some(states[j]);
    StartIsInv(states[0]);
    RunKeepsInv(states, events, j - 1);
    SampleMoves(states[j - 1], events[j - 1]);
    if i < j - 1 && !BeforeSample(states[j - 1].timer) {
      SampleComesBetweenSleeps(states, events, i, j - 1);
    }
  }

  lemma LookMoves(s: State, e: Event)
    requires Inv(s) && Step(s, e).Some?
    ensures var t := Step(s, e).value.timer;
            && (t.TSleep? && !s.timer.TSleep? ==> s.timer.TTestRunning? && s.flags.running && e.TimerStep?)
            && (t.TRead? && !s.timer.TRead? ==> s.timer.TTestShutdown? && !s.flags.shutdown && e.TimerStep?)
  {
    hide OneWinner, RunningFlag, Log, NextLimit;
    if !IsExternal(e) && !s.calls.Of(Caller(e)).Outside? {
      CallLeaves(s, Caller(e));
    } else {
      match e
      case MainStep => match s.main { case MCreateTimer => case _ => }
      case TimerStep(_) => match s.timer { case TLimit(_) => case _ => }
      case HandlerStep =>
      case StopStep(_) => match s.stop { case SLimit(_) => case _ => }
      case _ =>
    }
  }

  /** Right before it goes to sleep, the timer thread has seen the solver running, and right before it samples, that no
      shutdown was asked for. */
  lemma {:induction false} TimerLooksFirst(states: seq<State>, events: seq<Event>, n: nat) returns (i: nat)
    requires Run(states, events) && IsStart(states[0]) && n < |states|
    requires states[n].timer.TSleep? || states[n].timer.TRead?
    ensures i < n && events[i].TimerStep? && forall k :: i < k <= n ==> states[k].timer == states[n].timer
    ensures if states[n].timer.TSleep? then states[i].timer.TTestRunning? && states[i].flags.running
            else states[i].timer.TTestShutdown? && !states[i].flags.shutdown
  {
    hide Step, Inv;
    assert n > 0;
    assert Step(states[n - 1], events[n - 1]) == Some(states[n]);
    StartIsInv(states[0]);
    RunKeepsInv(states, events, n - 1);
    LookMoves(states[n - 1], events[n - 1]);
    if states[n - 1].timer == states[n].timer {
      i := TimerLooksFirst(states, events, n - 1);
    } else {
      i := n - 1;
    }
  }

  predicate HasEnded(t: Timer) { t.TAnnounce? || t.TExited? }

  lemma EndMoves(s: State, e: Event)
    requires Inv(s) && Step(s, e).Some?
    ensures var s' := Step(s, e).value;
            && (HasEnded(s'.timer) && !HasEnded(s.timer) ==> s'.flags.shutdown || !s'.flags.running)
            && (HasEnded(s.timer) && (s.flags.shutdown || !s.flags.running) ==> s'.flags.shutdown || !s'.flags.running)
  {
    hide OneWinner, RunningFlag, Log, NextLimit;
    if !IsExternal(e) && !s.calls.Of(Caller(e)).Outside? {
      CallLeaves(s, Caller(e));
    } else {
      match e
      case MainStep => match s.main { case MSetRunning => case _ => }
      case TimerStep(_) => match s.timer { case TLimit(_) => case _ => }
      case HandlerStep =>
      case StopStep(_) => match s.stop { case SLimit(_) => case _ => }
      case _ =>
    }
  }

  /** The timer thread goes on sampling until shutdown is asked for or it has found the root process gone. */
  lemma {:induction false} TimerEndsForAReason(states: seq<State>, events: seq<Event>, n: nat)
    requires Run(states, events) && IsStart(states[0]) && n < |states| && HasEnded(states[n].timer)
    ensures states[n].flags.shutdown || !states[n].flags.running
    ensures states[n].flags.shutdown || states[n].past.rootGone
  {
    hide Step, Inv, HasEnded;
    StartIsInv(states[0]);
    RunKeepsInv(states, events, n);
    if n > 0 {
      RunKeepsInv(states, events, n - 1);
      assert Step(states[n - 1], events[n - 1]) == Some(states[n]);
      EndMoves(states[n - 1], events[n - 1]);
      if HasEnded(states[n - 1].timer) { TimerEndsForAReason(states, events, n - 1); }
      EndedIsSeen(states[n]);
    } else {
      NotYetSampling(states[0]);
    }
  }

  lemma EndedIsSeen(s: State)
    requires Inv(s) && HasEnded(s.timer)
    ensures !s.flags.running ==> s.flags.shutdown || s.past.rootGone
  {}

  lemma NotYetSampling(s: State)
    requires IsStart(s)
    ensures !HasEnded(s.timer)
  {}

  // ---- the stop thread ----

  /** The stop thread has made its step at p. */
  ghost predicate Passed(states: seq<State>, events: seq<Event>, n: nat, p: Stop)
    requires |states| == |events| + 1 && n < |states|
  {
    exists i :: 0 <= i < n && states[i].stop == p && events[i].StopStep? && states[i].calls.stop.Outside?
  }

  predicate HasRead(p: Stop) {
    p.SLimit? || p.SDisplay? || p.STerm? || HasTerminated(p)
  }

  predicate HasDisplayed(p: Stop) {
    p.STerm? || HasTerminated(p)
  }

  lemma StopMoves(s: State, e: Event)
    requires Inv(s) && Step(s, e).Some?
    ensures var p := Step(s, e).value.stop;
            && (HasRead(p) ==> HasRead(s.stop) || (s.stop.SRead? && e.StopStep? && s.calls.stop.Outside?))
            && (HasDisplayed(p) ==> HasDisplayed(s.stop) || (s.stop.SDisplay? && e.StopStep? && s.calls.stop.Outside?))
            && (HasTerminated(p) ==> HasTerminated(s.stop) || (s.stop.STerm? && e.StopStep? && s.calls.stop.Outside?))
  {
    hide OneWinner, RunningFlag, Log;
    if !IsExternal(e) && !s.calls.Of(Caller(e)).Outside? {
      CallChanges(s, Caller(e));
    } else {
      match e
      case MainStep => match s.main { case MCreateStop => case _ => }
      case TimerStep(_) => match s.timer { case TAnnounce => case _ => }
      case HandlerStep =>
      case StopStep(_) =>
      case _ =>
    }
  }

  /** Before it sends SIGTERM, the stop thread takes a last sample and displays it. */
  lemma {:induction false} LastSampleComesBeforeTerm(states: seq<State>, events: seq<Event>, n: nat)
    requires Run(states, events) && IsStart(states[0]) && n < |states|
    ensures HasRead(states[n].stop) ==> Passed(states, events, n, SRead)
    ensures HasDisplayed(states[n].stop) ==> Passed(states, events, n, SDisplay)
    ensures HasTerminated(states[n].stop) ==> Passed(states, events, n, STerm)
  {
    hide Step, Inv, HasRead, HasDisplayed, HasTerminated;
    if n > 0 {
      LastSampleComesBeforeTerm(states, events, n - 1);
      assert Step(states[n - 1], events[n - 1]) == Some(states[n]);
      StartIsInv(states[0]);
      RunKeepsInv(states, events, n - 1);
      StopMoves(states[n - 1], events[n - 1]);
    } else {
      NotYetStarted(states[0]);
    }
  }

  lemma NotYetStarted(s: State)
    requires IsStart(s)
    ensures !HasRead(s.stop) && !HasDisplayed(s.stop) && !HasTerminated(s.stop)
  {}

  /** The stop thread is about to kill, or has sent the first SIGKILL. */
  predicate Kills(p: Stop) { p.SKillTree? || p.SKillGroup? }

  lemma FlagStaysDown(s: State, e: Event)
    requires Inv(s) && Step(s, e).Some? && !s.stop.SNotCreated?
    ensures Step(s, e).value.flags.running ==> s.flags.running
  {
    hide OneWinner, RunningFlag, Log, NextLimit, Callers;
    if !IsExternal(e) && !s.calls.Of(Caller(e)).Outside? {
      CallLeaves(s, Caller(e));
    } else {
      match e
      case MainStep => match s.main { case MSetRunning => case MClearRunning => case _ => }
      case TimerStep(_) => match s.timer { case TClearRunning => case _ => }
      case HandlerStep =>
      case StopStep(_) => match s.stop { case SLimit(_) => case _ => }
      case _ =>
    }
  }

  lemma KillMoves(s: State, e: Event)
    requires Inv(s) && Step(s, e).Some?
    ensures var s' := Step(s, e).value;
            && (Kills(s'.stop) && !Kills(s.stop) ==> s.stop.STestAgain? && s.flags.running)
            && (s'.stop.STestAgain? && !s.stop.STestAgain?
                ==> if s.flags.running then s.stop.SSleep? && e.StopStep? else !s'.flags.running)
  {
    hide OneWinner, RunningFlag, Log, NextLimit;
    if !IsExternal(e) && !s.calls.Of(Caller(e)).Outside? {
      CallChanges(s, Caller(e));
    } else {
      match e
      case MainStep => match s.main { case MCreateStop => case _ => }
      case TimerStep(_) => match s.timer { case TAnnounce => case _ => }
      case HandlerStep =>
      case StopStep(_) =>
      case _ =>
    }
  }

  /** The stop thread kills only after a pause that it has slept to its end since it sent SIGTERM. */
  lemma {:induction false} PauseComesBeforeKill(states: seq<State>, events: seq<Event>, n: nat) returns (i: nat)
    requires Run(states, events) && IsStart(states[0]) && n < |states|
    requires Kills(states[n].stop) || (states[n].stop.STestAgain? && states[n].flags.running)
    ensures i < n && states[i].stop.SSleep? && events[i].StopStep? && states[i].past.log == [TermSweep]
  {
    hide Step, OneWinner, Callers, Order, RunningFlag, Log;
    assert n > 0;
    StartIsInv(states[0]);
    RunKeepsInv(states, events, n - 1);
    assert Step(states[n - 1], events[n - 1]) == Some(states[n]);
    KillMoves(states[n - 1], events[n - 1]);
    if !states[n - 1].stop.SNotCreated? { FlagStaysDown(states[n - 1], events[n - 1]); }
    if states[n - 1].stop.SSleep? {
      i := n - 1;
      LogWhileSleeping(states[i]);
    } else {
      i := PauseComesBeforeKill(states, events, n - 1);
    }
  }

  lemma LogWhileSleeping(s: State)
    requires Inv(s) && s.stop.SSleep?
    ensures s.past.log == [TermSweep]
  {}
}
