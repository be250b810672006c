/** The flags that the threads of runsolver share, each behind its own mutex. */
module SharedFlags {

  datatype Flags = Flags(running: bool, shutdown: bool, invoked: bool, shouldExecute: bool, timerStopped: bool) {
    /** What an uninterrupted stopSolver makes of the flags: only the first call does anything. */
    function Stopped(): Flags {
      if invoked then this else this.(invoked := true, shutdown := true, shouldExecute := true)
    }
  }

  /** Once stopped, further calls change nothing: however many callers there are, one acts. */
  lemma {:induction false} StoppingOnceIsEnough(f: Flags, calls: nat)
    ensures StoppedBy(f, calls) == if calls == 0 then f else f.Stopped()
  {
    if calls > 0 {
      StoppingOnceIsEnough(f, calls - 1);
    }
  }

  function StoppedBy(f: Flags, calls: nat): Flags {
    if calls == 0 then f else StoppedBy(f, calls - 1).Stopped()
  }

  /** Each method is one critical section; nothing in them blocks. */
  class FlagStore {
    var solverIsRunning: bool
    var timerThreadShouldShutdown: bool
    var stopSolverInvokedByCaller: bool
    var stopSolverShouldExecute: bool
    var timerThreadStopped: bool

    ghost function Value(): Flags
      reads this
    {
      Flags(solverIsRunning, timerThreadShouldShutdown, stopSolverInvokedByCaller, stopSolverShouldExecute,
          timerThreadStopped)
    }

    /** The initialisers at the start of run(). */
    constructor ()
      ensures Value() == Flags(false, false, false, false, false)
    {
      solverIsRunning, timerThreadShouldShutdown, stopSolverInvokedByCaller := false, false, false;
      stopSolverShouldExecute, timerThreadStopped := false, false;
    }

    method SetSolverIsRunning(running: bool)
      modifies `solverIsRunning
      ensures Value() == old(Value()).(running := running)
    {
      solverIsRunning := running;
    }

    method SetTimerThreadShouldShutdown(shutdown: bool)
      modifies `timerThreadShouldShutdown
      ensures Value() == old(Value()).(shutdown := shutdown)
    {
      timerThreadShouldShutdown := shutdown;
    }

    method CompareAndSetStopSolverInvoked(expected: bool, newValue: bool) returns (changed: bool)
      modifies `stopSolverInvokedByCaller
      ensures changed <==> old(Value()).invoked == expected
      ensures Value() == if changed then old(Value()).(invoked := newValue) else old(Value())
    {
      if stopSolverInvokedByCaller == expected {
        stopSolverInvokedByCaller := newValue;
        changed := true;
      } else {
        changed := false;
      }
    }

    method SetStopSolverShouldExecute()
      modifies `stopSolverShouldExecute
      ensures Value() == old(Value()).(shouldExecute := true)
    {
      stopSolverShouldExecute := true;
    }

    method SetTimerThreadStopped()
      modifies `timerThreadStopped
      ensures Value() == old(Value()).(timerStopped := true)
    {
      timerThreadStopped := true;
    }

    method StopSolver()
      modifies this
      ensures Value() == old(Value()).Stopped()
    {
      var first := CompareAndSetStopSolverInvoked(false, true);
      if !first {
        return; // someone else has won
      }
      SetTimerThreadShouldShutdown(true);
      SetStopSolverShouldExecute();
    }
  }
}

/** The threads of runsolver as a transition system: one step is one critical section, one blocking call
    or one stretch of code between two of them. */
module StopProtocol {
  import opened SharedFlags
  import opened Wrappers

  datatype Thread = MainThread | TimerThread | HandlerThread | StopThread

  /** Where a thread is inside stopSolver; its own state then says where it goes on after the return. */
  datatype Call = Outside | CompareAndSet | RequestShutdown | Release

  datatype Calls = Calls(main: Call, timer: Call, handler: Call, stop: Call) {
    function Of(t: Thread): Call {
      match t
      case MainThread => main
      case TimerThread => timer
      case HandlerThread => handler
      case StopThread => stop
    }

    function With(t: Thread, c: Call): (r: Calls)
      ensures r.Of(t) == c && forall u :: u != t ==> r.Of(u) == Of(u)
    {
      match t
      case MainThread => this.(main := c)
      case TimerThread => this.(timer := c)
      case HandlerThread => this.(handler := c)
      case StopThread => this.(stop := c)
    }
  }

  /** The limits that readProcessData tests, in this order. */
  datatype Limit = CpuTime | WallClock | VSize

  datatype Main =
    | MFork | MSetRunning | MReadTree | MCreateTimer | MCreateStop | MWait4
    | MRequestShutdown | MClearRunning | MJoinTimer | MJoinStamper | MJoinStop | MKillGroup | MDumpHistory | MDone

  datatype Timer =
    | TNotCreated | TTestRunning | TSleep | TTestShutdown | TRead | TLimit(limit: Limit)
    | TClearRunning | TDisplay | TAnnounce | TExited

  datatype Handler = HSigwait | HRequestShutdown | HExited

  /** STestExecute and SWaitExecute are the two halves of the loop that waits on a condition variable:
      the test under the lock, and being asleep in pthread_cond_wait. */
  datatype Stop =
    | SNotCreated | STestExecute | SWaitExecute | STestTimer | SWaitTimer | SRead | SLimit(limit: Limit)
    | SDisplay | STerm | STestRunning | SSleep | STestAgain | SKillTree | SKillGroup | SExited

  /** The signals sent to the solver. */
  datatype Signal = TermSweep | KillSweep | KillGroup | FinalKill

  /** What other processes do: whether the child runs, and whether the time stamper thread does, which it does as long
      as some process holds the output of the solver open. */
  datatype World = World(alive: bool, outputOpen: bool)

  /** What has happened: whether the timer thread has found the root process gone, who won the compare-and-set,
      and the signals sent. */
  datatype Past = Past(rootGone: bool, wins: seq<Thread>, log: seq<Signal>)

  datatype State = State(main: Main, timer: Timer, handler: Handler, stop: Stop, calls: Calls, flags: Flags,
                         world: World, past: Past)

  /** Steps of the threads, what other processes do, and what interrupts the threads. The choices of TimerStep and
      StopStep stand for what is read from /proc and the clock: whether the root is gone, whether a limit is exceeded.
      OutputCloses is the end of the time stamper thread, once every process that held the solver's output has closed
      it. */
  datatype Event =
    | MainStep | TimerStep(choice: bool) | HandlerStep | StopStep(choice: bool) | ChildExits | OutputCloses
    | TermSignal | OtherSignal | SleepInterrupted(thread: Thread) | SpuriousWakeup

  predicate IsInterrupt(e: Event) {
    e.TermSignal? || e.OtherSignal? || e.SleepInterrupted? || e.SpuriousWakeup?
  }

  /** What is no step of a thread. */
  predicate IsExternal(e: Event) {
    e.ChildExits? || e.OutputCloses? || IsInterrupt(e)
  }

  /** After the initialisers in run(), with or without time stamping; the signal handler thread runs already. */
  function Start(stamping: bool): State {
    State(MFork, TNotCreated, HSigwait, SNotCreated, Calls(Outside, Outside, Outside, Outside),
          Flags(false, false, false, false, false), World(true, stamping), Past(false, [], []))
  }

  predicate IsStart(s: State) {
    s == Start(true) || s == Start(false)
  }

  // ---- steps ----

  /** One step of a thread that is inside stopSolver. */
  function StopSolver(s: State, t: Thread): State {
    match s.calls.Of(t)
    case Outside => s
    case CompareAndSet =>
      if s.flags.invoked then s.(calls := s.calls.With(t, Outside))
      else s.(calls := s.calls.With(t, RequestShutdown), flags := s.flags.(invoked := true),
              past := s.past.(wins := s.past.wins + [t]))
    case RequestShutdown => s.(calls := s.calls.With(t, Release), flags := s.flags.(shutdown := true))
    case Release =>
      // the broadcast wakes the stop thread if it waits
      s.(calls := s.calls.With(t, Outside), flags := s.flags.(shouldExecute := true),
         stop := if s.stop.SWaitExecute? then STestExecute else s.stop)
  }

  function MainNext(s: State): Option<State> {
    match s.main
    case MFork => Some(s.(main := MSetRunning))
    case MSetRunning => Some(s.(main := MReadTree, flags := s.flags.(running := true)))
    case MReadTree => Some(s.(main := MCreateTimer))
    case MCreateTimer => Some(s.(main := MCreateStop, timer := TTestRunning))
    case MCreateStop => Some(s.(main := MWait4, stop := STestExecute))
    case MWait4 =>
      if s.world.alive then None else Some(s.(main := MRequestShutdown, calls := s.calls.(main := CompareAndSet)))
    case MRequestShutdown => Some(s.(main := MClearRunning, flags := s.flags.(shutdown := true)))
    case MClearRunning => Some(s.(main := MJoinTimer, flags := s.flags.(running := false)))
    case MJoinTimer => if s.timer.TExited? then Some(s.(main := MJoinStamper)) else None
    case MJoinStamper => if s.world.outputOpen then None else Some(s.(main := MJoinStop))
    case MJoinStop => if s.stop.SExited? then Some(s.(main := MKillGroup)) else None
    case MKillGroup => Some(s.(main := MDumpHistory, past := s.past.(log := s.past.log + [FinalKill])))
    case MDumpHistory => Some(s.(main := MDone))
    case MDone => None
  }

  /** The limits are tested one after the other. */
  function NextLimit(limit: Limit): Option<Limit> {
    match limit
    case CpuTime => Some(WallClock)
    case WallClock => Some(VSize)
    case VSize => None
  }

  function TimerNext(s: State, choice: bool): Option<State> {
    match s.timer
    case TNotCreated => None
    case TTestRunning => Some(s.(timer := if s.flags.running then TSleep else TAnnounce))
    case TSleep => Some(s.(timer := TTestShutdown))
    case TTestShutdown => Some(s.(timer := if s.flags.shutdown then TAnnounce else TRead))
    case TRead =>
      Some(if choice then s.(timer := TClearRunning, past := s.past.(rootGone := true))
           else s.(timer := TLimit(CpuTime)))
    case TLimit(limit) =>
      Some(s.(timer := if NextLimit(limit).Some? then TLimit(NextLimit(limit).value) else TDisplay,
              calls := if choice then s.calls.(timer := CompareAndSet) else s.calls))
    case TClearRunning => Some(s.(timer := TAnnounce, flags := s.flags.(running := false)))
    case TDisplay => Some(s.(timer := TTestRunning))
    case TAnnounce =>
      // the broadcast wakes the stop thread if it waits
      Some(s.(timer := TExited, flags := s.flags.(timerStopped := true),
              stop := if s.stop.SWaitTimer? then STestTimer else s.stop))
    case TExited => None
  }

  function HandlerNext(s: State): Option<State> {
    match s.handler
    case HSigwait => None
    case HRequestShutdown =>
      Some(s.(handler := HExited, flags := s.flags.(shutdown := true), calls := s.calls.(handler := CompareAndSet)))
    case HExited => None
  }

  function StopNext(s: State, choice: bool): Option<State> {
    match s.stop
    case SNotCreated => None
    case STestExecute => Some(s.(stop := if s.flags.shouldExecute then STestTimer else SWaitExecute))
    case SWaitExecute => None
    case STestTimer => Some(s.(stop := if s.flags.timerStopped then SRead else SWaitTimer))
    case SWaitTimer => None
    case SRead => Some(s.(stop := if choice then SDisplay else SLimit(CpuTime)))
    case SLimit(limit) =>
      Some(s.(stop := if NextLimit(limit).Some? then SLimit(NextLimit(limit).value) else SDisplay,
              calls := if choice then s.calls.(stop := CompareAndSet) else s.calls))
    case SDisplay => Some(s.(stop := STerm))
    case STerm => Some(s.(stop := STestRunning, past := s.past.(log := s.past.log + [TermSweep])))
    case STestRunning => Some(s.(stop := if s.flags.running then SSleep else STestAgain))
    case SSleep => Some(s.(stop := STestAgain))
    case STestAgain => Some(s.(stop := if s.flags.running then SKillTree else SExited))
    case SKillTree => Some(s.(stop := SKillGroup, past := s.past.(log := s.past.log + [KillSweep])))
    case SKillGroup => Some(s.(stop := SExited, past := s.past.(log := s.past.log + [KillGroup])))
    case SExited => None
  }

  /** What the environment does to a state. */
  function EnvironmentNext(s: State, e: Event): Option<State>
    requires IsExternal(e)
  {
    match e
    case ChildExits => if s.world.alive && !s.main.MFork? then Some(s.(world := s.world.(alive := false))) else None
    case OutputCloses => if s.world.outputOpen then Some(s.(world := s.world.(outputOpen := false))) else None
    case TermSignal => if s.handler.HSigwait? then Some(s.(handler := HRequestShutdown)) else None
    case OtherSignal => if s.handler.HSigwait? then Some(s) else None
    case SleepInterrupted(t) =>
      if t.TimerThread? && s.timer.TSleep? then Some(s) // nanosleep is called again at once
      else if t.StopThread? && s.stop.SSleep? then Some(s.(stop := STestRunning))
      else None
    case SpuriousWakeup =>
      if s.stop.SWaitExecute? then Some(s.(stop := STestExecute))
      else if s.stop.SWaitTimer? then Some(s.(stop := STestTimer))
      else None
  }

  function Caller(e: Event): Thread
    requires !IsExternal(e)
  {
    match e
    case MainStep => MainThread
    case TimerStep(_) => TimerThread
    case HandlerStep => HandlerThread
    case StopStep(_) => StopThread
  }

  /** What an event makes of a state, if it can happen there. */
  function Step(s: State, e: Event): Option<State> {
    if IsExternal(e) then EnvironmentNext(s, e)
    else if !s.calls.Of(Caller(e)).Outside? then Some(StopSolver(s, Caller(e)))
    else
      match e
      case MainStep => MainNext(s)
      case TimerStep(choice) => TimerNext(s, choice)
      case HandlerStep => HandlerNext(s)
      case StopStep(choice) => StopNext(s, choice)
  }

  // ---- what holds in every reachable state ----

  function Place(m: Main): nat {
    match m
    case MFork => 0 case MSetRunning => 1 case MReadTree => 2 case MCreateTimer => 3 case MCreateStop => 4
    case MWait4 => 5 case MRequestShutdown => 6 case MClearRunning => 7
    case MJoinTimer => 8 case MJoinStamper => 9 case MJoinStop => 10
    case MKillGroup => 11 case MDumpHistory => 12 case MDone => 13
  }

  /** A thread is between winning the compare-and-set and releasing the stop thread
      if and only if it is the winner and the stop thread is not yet released. */
  predicate WinnerIsNoted(s: State, t: Thread) {
    && (s.calls.Of(t).RequestShutdown? || s.calls.Of(t).Release?
        <==> s.flags.invoked && !s.flags.shouldExecute && s.past.wins == [t])
    && (s.calls.Of(t).Release? ==> s.flags.shutdown)
  }

  /** A won compare-and-set means that the stop thread is released or the one winner is about to release it. */
  ghost predicate OneWinner(s: State) {
    && (if s.flags.invoked then |s.past.wins| == 1 else s.past.wins == [])
    && (forall t :: WinnerIsNoted(s, t))
    && (s.flags.shouldExecute ==> s.flags.invoked && s.flags.shutdown)
  }

  /** Who may be inside stopSolver, and what is certain after the return. */
  ghost predicate Callers(s: State) {
    && (!s.calls.main.Outside? ==> s.main.MRequestShutdown?)
    && (!s.calls.timer.Outside? ==> s.timer.TLimit? || s.timer.TDisplay?)
    && (!s.calls.handler.Outside? ==> s.handler.HExited?)
    && (!s.calls.stop.Outside? ==> s.stop.SLimit? || s.stop.SDisplay?)
    && (Place(s.main) >= 6 && !s.calls.main.CompareAndSet? ==> s.flags.invoked)
    && (Place(s.main) >= 7 ==> s.flags.shutdown)
    && (s.flags.shutdown ==> s.flags.invoked || s.calls.handler.CompareAndSet?)
    && (s.handler.HExited? ==> s.flags.shutdown)
    && (s.handler.HExited? && !s.calls.handler.CompareAndSet? ==> s.flags.invoked)
  }

  predicate StopIsReleased(p: Stop) {
    !(p.SNotCreated? || p.STestExecute? || p.SWaitExecute?)
  }

  predicate StopIsAlone(p: Stop) {
    StopIsReleased(p) && !p.STestTimer? && !p.SWaitTimer?
  }

  /** The order in which the threads start, stop and wait for one another; no one sleeps on a condition that holds. */
  ghost predicate Order(s: State) {
    && (s.timer.TNotCreated? <==> Place(s.main) <= 3)
    && (s.stop.SNotCreated? <==> Place(s.main) <= 4)
    && (s.timer.TExited? <==> s.flags.timerStopped)
    && (StopIsReleased(s.stop) ==> s.flags.shouldExecute)
    && (s.stop.SWaitExecute? ==> !s.flags.shouldExecute)
    && (StopIsAlone(s.stop) ==> s.flags.timerStopped)
    && (s.stop.SWaitTimer? ==> !s.flags.timerStopped)
    && (Place(s.main) >= 9 ==> s.timer.TExited?)
    && (Place(s.main) >= 10 ==> !s.world.outputOpen)
    && (Place(s.main) >= 11 ==> s.stop.SExited?)
    && (Place(s.main) >= 6 ==> !s.world.alive)
    && (s.main.MFork? ==> s.world.alive)
  }

  /** The running flag is up from the fork until wait4 has returned or the timer thread has seen the root gone. */
  ghost predicate RunningFlag(s: State) {
    && (s.flags.running ==> 2 <= Place(s.main) <= 7)
    && (2 <= Place(s.main) <= 7 && !s.flags.running ==> s.past.rootGone)
    && (s.past.rootGone ==> s.timer.TClearRunning? || !s.flags.running)
    && (s.timer.TClearRunning? ==> s.past.rootGone)
    && (s.timer.TNotCreated? ==> !s.past.rootGone)
  }

  predicate HasTerminated(p: Stop) {
    p.STestRunning? || p.SSleep? || p.STestAgain? || p.SKillTree? || p.SKillGroup? || p.SExited?
  }

  /** The signals sent so far, from where the threads stand; the stop thread kills only if the root has not been found
      gone. */
  ghost predicate Log(s: State) {
    var tail := if Place(s.main) >= 12 then [FinalKill] else [];
    if !HasTerminated(s.stop) then s.past.log == []
    else if s.stop.SKillGroup? then s.past.log == [TermSweep, KillSweep] && !s.past.rootGone
    else if s.stop.SExited? then
      || (s.past.log == [TermSweep, KillSweep, KillGroup] + tail && !s.past.rootGone)
      || (s.past.log == [TermSweep] + tail && !s.flags.running)
    else s.past.log == [TermSweep] && (s.stop.SKillTree? ==> !s.past.rootGone)
  }

  ghost predicate Inv(s: State) {
    OneWinner(s) && Callers(s) && Order(s) && RunningFlag(s) && Log(s)
  }

  lemma StartIsInv(s: State)
    requires IsStart(s)
    ensures Inv(s)
  {}

  /** A step outside stopSolver wins nothing; at most it enters stopSolver. */
  ghost predicate Quiet(s: State, s': State) {
    && s'.past.wins == s.past.wins && s'.flags.invoked == s.flags.invoked
        && s'.flags.shouldExecute == s.flags.shouldExecute
    && (s.flags.shutdown ==> s'.flags.shutdown)
    && (forall t :: EntersAtMost(s, s', t))
  }

  predicate EntersAtMost(s: State, s': State, t: Thread) {
    s'.calls.Of(t) == s.calls.Of(t) || (s.calls.Of(t).Outside? && s'.calls.Of(t).CompareAndSet?)
  }

  lemma MainIsQuiet(s: State)
    requires s.calls.main.Outside? && MainNext(s).Some?
    ensures Quiet(s, MainNext(s).value)
  {
    match s.main { case MSetRunning => case MWait4 => case MRequestShutdown => case MClearRunning => case _ => }
  }

  lemma TimerIsQuiet(s: State, choice: bool)
    requires s.calls.timer.Outside? && TimerNext(s, choice).Some?
    ensures Quiet(s, TimerNext(s, choice).value)
  {
    match s.timer { case TLimit(_) => case TClearRunning => case TAnnounce => case _ => }
  }

  lemma StepIsQuiet(s: State, e: Event)
    requires Step(s, e).Some? && (IsExternal(e) || s.calls.Of(Caller(e)).Outside?)
    ensures Quiet(s, Step(s, e).value)
  {
    hide MainNext, TimerNext;
    match e
    case MainStep => MainIsQuiet(s);
    case TimerStep(choice) => TimerIsQuiet(s, choice);
    case HandlerStep =>
    case StopStep(_) => match s.stop { case SLimit(_) => case _ => }
    case _ =>
  }

  lemma QuietKeepsOneWinner(s: State, s': State)
    requires OneWinner(s) && Quiet(s, s')
    ensures OneWinner(s')
  {
    forall t ensures WinnerIsNoted(s', t) {
      assert WinnerIsNoted(s, t) && EntersAtMost(s, s', t);
    }
  }

  lemma CallKeepsOneWinner(s: State, t: Thread)
    requires OneWinner(s) && !s.calls.Of(t).Outside?
    ensures OneWinner(StopSolver(s, t))
  {
    var s' := StopSolver(s, t);
    assert WinnerIsNoted(s, t) && [] + [t] == [t];
    match s.calls.Of(t) { case CompareAndSet => case RequestShutdown => case Release => }
    forall u ensures WinnerIsNoted(s', u) {
      assert WinnerIsNoted(s, u);
    }
  }

  // The rest of the invariant, thread by thread.

  ghost predicate Rest(s: State) {
    Callers(s) && Order(s) && RunningFlag(s) && Log(s)
  }

  /** What a step inside stopSolver leaves alone. */
  lemma CallLeaves(s: State, t: Thread)
    requires !s.calls.Of(t).Outside?
    ensures var s' := StopSolver(s, t);
            && s'.main == s.main && s'.timer == s.timer && s'.handler == s.handler && s'.world.alive == s.world.alive
            && s'.world.outputOpen == s.world.outputOpen && s'.past.rootGone == s.past.rootGone
                && s'.past.log == s.past.log
            && s'.flags.running == s.flags.running && s'.flags.timerStopped == s.flags.timerStopped
            && (forall u :: u != t ==> s'.calls.Of(u) == s.calls.Of(u))
  {
    match s.calls.Of(t)
    case CompareAndSet =>
    case RequestShutdown =>
    case Release =>
  }

  /** What it changes. */
  lemma CallChanges(s: State, t: Thread)
    requires !s.calls.Of(t).Outside?
    ensures var s', call := StopSolver(s, t), s.calls.Of(t);
            && !s'.calls.Of(t).CompareAndSet? && (call.CompareAndSet? ==> s'.flags.invoked)
            && (s.flags.invoked ==> s'.flags.invoked) && (s.flags.shutdown ==> s'.flags.shutdown)
            && (s'.flags.shutdown ==> s.flags.shutdown || call.RequestShutdown?)
            && (if call.Release?
                then s'.flags.shouldExecute && s'.stop == (if s.stop.SWaitExecute? then STestExecute else s.stop)
                else s'.flags.shouldExecute == s.flags.shouldExecute && s'.stop == s.stop)
  {
    match s.calls.Of(t)
    case CompareAndSet =>
    case RequestShutdown =>
    case Release =>
  }

  lemma CallKeepsRest(s: State, t: Thread)
    requires OneWinner(s) && Rest(s) && !s.calls.Of(t).Outside?
    ensures Rest(StopSolver(s, t))
  {
    hide StopSolver;
    assert WinnerIsNoted(s, t);
    CallLeaves(s, t);
    CallChanges(s, t);
    var calls := StopSolver(s, t).calls;
    assert t != MainThread ==> calls.Of(MainThread) == s.calls.Of(MainThread);
    assert t != TimerThread ==> calls.Of(TimerThread) == s.calls.Of(TimerThread);
    assert t != HandlerThread ==> calls.Of(HandlerThread) == s.calls.Of(HandlerThread);
    assert t != StopThread ==> calls.Of(StopThread) == s.calls.Of(StopThread);
  }

  lemma EnvironmentKeepsRest(s: State, e: Event)
    requires Rest(s) && IsExternal(e) && EnvironmentNext(s, e).Some?
    ensures Rest(EnvironmentNext(s, e).value)
  {
    match e
    case ChildExits =>
    case OutputCloses =>
    case TermSignal =>
    case SpuriousWakeup =>
    case _ =>
  }

  lemma MainKeepsCallers(s: State)
    requires Callers(s) && Order(s) && s.calls.main.Outside? && MainNext(s).Some?
    ensures Callers(MainNext(s).value)
  {}

  lemma MainKeepsOrder(s: State)
    requires Order(s) && s.calls.main.Outside? && MainNext(s).Some?
    ensures Order(MainNext(s).value)
  {}

  lemma MainKeepsRunningFlag(s: State)
    requires Order(s) && RunningFlag(s) && s.calls.main.Outside? && MainNext(s).Some?
    ensures RunningFlag(MainNext(s).value)
  {}

  lemma MainKeepsLog(s: State)
    requires Order(s) && Log(s) && s.calls.main.Outside? && MainNext(s).Some?
    ensures Log(MainNext(s).value)
  {}

  lemma TimerKeepsRest(s: State, choice: bool)
    requires Rest(s) && s.calls.timer.Outside? && TimerNext(s, choice).Some?
    ensures Rest(TimerNext(s, choice).value)
  {
    match s.timer
    case TTestRunning =>
    case TSleep =>
    case TTestShutdown =>
    case TRead =>
    case TLimit(_) =>
    case TClearRunning =>
    case TDisplay =>
    case TAnnounce =>
  }

  lemma HandlerKeepsRest(s: State)
    requires Rest(s) && s.calls.handler.Outside? && HandlerNext(s).Some?
    ensures Rest(HandlerNext(s).value)
  {}

  lemma StopKeepsRest(s: State, choice: bool)
    requires Rest(s) && s.calls.stop.Outside? && StopNext(s, choice).Some?
    ensures Rest(StopNext(s, choice).value)
  {
    match s.stop
    case STestExecute =>
    case STestTimer =>
    case SRead =>
    case SLimit(_) =>
    case SDisplay =>
    case STerm =>
    case STestRunning =>
    case SSleep =>
    case STestAgain =>
    case SKillTree =>
    case SKillGroup =>
  }

  /** Every step keeps the invariant. */
  lemma StepKeepsInv(s: State, e: Event)
    requires Inv(s) && Step(s, e).Some?
    ensures Inv(Step(s, e).value)
  {
    hide OneWinner, Callers, Order, RunningFlag, Log, StopSolver, MainNext, TimerNext, HandlerNext, StopNext,
        EnvironmentNext, Quiet;
    if IsExternal(e) {
      StepIsQuiet(s, e);
      QuietKeepsOneWinner(s, Step(s, e).value);
      EnvironmentKeepsRest(s, e);
    } else if !s.calls.Of(Caller(e)).Outside? {
      CallKeepsOneWinner(s, Caller(e));
      CallKeepsRest(s, Caller(e));
    } else {
      StepIsQuiet(s, e);
      QuietKeepsOneWinner(s, Step(s, e).value);
      match e
      case MainStep =>
        MainKeepsCallers(s);
        MainKeepsOrder(s);
        MainKeepsRunningFlag(s);
        MainKeepsLog(s);
      case TimerStep(choice) => TimerKeepsRest(s, choice);
      case HandlerStep => HandlerKeepsRest(s);
      case StopStep(choice) => StopKeepsRest(s, choice);
    }
  }

  // ---- what holds over every run ----

  /** Each state follows from the one before by the event between them. */
  ghost predicate Run(states: seq<State>, events: seq<Event>) {
    && |states| == |events| + 1
    && forall i :: 0 <= i < |events| ==> Step(states[i], events[i]) == Some(states[i + 1])
  }

  lemma {:induction false} RunKeepsInv(states: seq<State>, events: seq<Event>, i: nat)
    requires Run(states, events) && Inv(states[0]) && i < |states|
    ensures Inv(states[i])
  {
    hide Inv, Step;
    if i > 0 {
      RunKeepsInv(states, events, i - 1);
      assert Step(states[i - 1], events[i - 1]) == Some(states[i]);
      StepKeepsInv(states[i - 1], events[i - 1]);
    }
  }

  /** Whether a thread may read or change the process tree or its history. */
  predicate Touches(s: State, t: Thread) {
    match t
    case MainThread => s.main.MReadTree? || s.main.MDumpHistory?
    case TimerThread => s.timer.TRead? || s.timer.TLimit? || s.timer.TDisplay?
    case HandlerThread => false
    case StopThread => s.stop.SRead? || s.stop.SLimit? || s.stop.SDisplay? || s.stop.STerm? || s.stop.SKillTree?
  }

  /** Who owns the tree: main before it creates the timer thread, that thread until it says that it has stopped,
      the stop thread until it exits, and main again. */
  function Turn(s: State): nat {
    if s.timer.TNotCreated? then 0
    else if !s.flags.timerStopped then 1
    else if !s.stop.SExited? then 2
    else 3
  }

  function Owner(turn: nat): Thread {
    if turn == 1 then TimerThread else if turn == 2 then StopThread else MainThread
  }

  lemma TouchesInTurn(s: State, t: Thread)
    requires Inv(s) && Touches(s, t)
    ensures t == Owner(Turn(s))
  {}

  lemma TurnsAdvance(s: State, e: Event)
    requires Inv(s) && Step(s, e).Some?
    ensures Turn(s) <= Turn(Step(s, e).value) <= Turn(s) + 1
  {
    hide OneWinner, RunningFlag, Log;
    if !IsExternal(e) && !s.calls.Of(Caller(e)).Outside? {
      match s.calls.Of(Caller(e))
      case Release =>
      case _ =>
    } else {
      match e
      case MainStep => match s.main { case MCreateTimer => case MCreateStop => case _ => }
      case TimerStep(_) => match s.timer { case TAnnounce => case _ => }
      case HandlerStep =>
      case StopStep(_) => match s.stop { case STestAgain => case SKillGroup => case SLimit(_) => case _ => }
      case _ =>
    }
  }

  /** In every interleaving only the owner of the turn may touch the tree or its history, so at most one thread at a
      time, and the turns go from main to the timer thread, the stop thread and main again, never back. */
  lemma {:induction false} MutualExclusion(states: seq<State>, events: seq<Event>, i: nat, j: nat)
    requires Run(states, events) && IsStart(states[0]) && i <= j < |states|
    ensures forall t :: Touches(states[j], t) ==> t == Owner(Turn(states[j]))
    ensures forall t, u :: Touches(states[j], t) && Touches(states[j], u) ==> t == u
    ensures Turn(states[i]) <= Turn(states[j])
    decreases j - i
  {
    hide Step, Inv, Touches, Turn;
    StartIsInv(states[0]);
    RunKeepsInv(states, events, j);
    forall t | Touches(states[j], t) ensures t == Owner(Turn(states[j])) {
      TouchesInTurn(states[j], t);
    }
    if i < j {
      RunKeepsInv(states, events, i);
      assert Step(states[i], events[i]) == Some(states[i + 1]);
      TurnsAdvance(states[i], events[i]);
      MutualExclusion(states, events, i + 1, j);
    }
  }

  /** However many threads call stopSolver, one wins, once; the stop thread is released only with the shutdown flag set;
      and no thread sleeps on a condition that holds. */
  lemma StopSolverWorksOnce(states: seq<State>, events: seq<Event>, i: nat)
    requires Run(states, events) && IsStart(states[0]) && i < |states|
    ensures |states[i].past.wins| <= 1
    ensures states[i].flags.invoked <==> states[i].past.wins != []
    ensures states[i].flags.shouldExecute ==> states[i].flags.shutdown
    ensures states[i].flags.invoked && !states[i].flags.shouldExecute
            ==> exists t :: states[i].past.wins == [t]
                            && (states[i].calls.Of(t).RequestShutdown? || states[i].calls.Of(t).Release?)
    ensures states[i].stop.SWaitExecute? ==> !states[i].flags.shouldExecute
    ensures states[i].stop.SWaitTimer? ==> !states[i].flags.timerStopped
  {
    hide Step;
    StartIsInv(states[0]);
    RunKeepsInv(states, events, i);
    var s := states[i];
    if s.flags.invoked && !s.flags.shouldExecute {
      assert s.past.wins == [s.past.wins[0]];
      assert WinnerIsNoted(s, s.past.wins[0]);
    }
  }

  /** A run that has reached its end sent one SIGTERM sweep, before every SIGKILL, and the final SIGKILL last. */
  lemma CompletedRun(states: seq<State>, events: seq<Event>)
    requires Run(states, events) && IsStart(states[0]) && states[|events|].main.MDone?
    ensures var log := states[|events|].past.log;
            log == [TermSweep, FinalKill] || log == [TermSweep, KillSweep, KillGroup, FinalKill]
  {
    hide Step;
    StartIsInv(states[0]);
    RunKeepsInv(states, events, |events|);
  }

  /** In every state of a run, the first signal sent is SIGTERM and all others are SIGKILL. */
  lemma TermComesFirst(states: seq<State>, events: seq<Event>, i: nat)
    requires Run(states, events) && IsStart(states[0]) && i < |states|
    ensures forall k :: 0 <= k < |states[i].past.log| ==> (states[i].past.log[k] == TermSweep <==> k == 0)
  {
    hide Step;
    StartIsInv(states[0]);
    RunKeepsInv(states, events, i);
  }

  /** A step that decides about the SIGKILL of the stop thread. */
  predicate Decides(s: State, e: Event) {
    s.stop.STestAgain? && e.StopStep? && s.calls.stop.Outside?
  }

  lemma StopMovesOn(s: State, e: Event)
    requires Inv(s) && Step(s, e).Some?
    ensures var s' := Step(s, e).value;
            && (s'.stop.SExited? && !s.stop.SExited? ==> Decides(s, e) || s.stop.SKillGroup?)
            && (s'.stop.SKillGroup? && !s.stop.SKillGroup? ==> s.stop.SKillTree?)
            && (s'.stop.SKillTree? && !s.stop.SKillTree? ==> Decides(s, e))
            && (Decides(s, e) ==> if s.flags.running then s'.stop.SKillTree? else s'.stop.SExited?)
  {
    hide OneWinner, RunningFlag, Log, NextLimit;
    if !IsExternal(e) && !s.calls.Of(Caller(e)).Outside? {
      match s.calls.Of(Caller(e))
      case Release =>
      case _ =>
    } else {
      match e
      case MainStep => match s.main { case MCreateStop => case _ => }
      case TimerStep(_) => match s.timer { case TAnnounce => case _ => }
      case HandlerStep =>
      case StopStep(_) =>
      case _ =>
    }
  }

  lemma LogOfStop(s: State, e: Event)
    requires Inv(s) && Step(s, e).Some? && Step(s, e).value.stop.SExited?
    ensures var log := Step(s, e).value.past.log;
            && (s.stop.SExited? ==> (KillSweep in log <==> KillSweep in s.past.log))
            && (s.stop.SKillGroup? ==> KillSweep in log)
            && (Decides(s, e) ==> KillSweep !in log)
  {
    hide OneWinner, RunningFlag, NextLimit;
    match e
    case MainStep => match s.main { case MCreateStop => case MKillGroup => case _ => }
    case TimerStep(_) => match s.timer { case TAnnounce => case _ => }
    case HandlerStep => match s.handler { case HRequestShutdown => case _ => }
    case StopStep(_) =>
    case _ =>
  }

  /** The running flag is down exactly for one of two reasons. */
  lemma NotRunningHasReason(s: State)
    requires Inv(s) && s.stop.STestAgain?
    ensures !s.flags.running <==> Place(s.main) >= 8 || s.past.rootGone
  {}

  /** The stop thread kills if and only if the running flag is up when it looks after its pause;
      and it is down exactly if the child has been waited for or the timer thread has seen the root process gone. */
  lemma {:induction false} RunningFlagDecides(states: seq<State>, events: seq<Event>, n: nat) returns (i: nat)
    requires Run(states, events) && IsStart(states[0]) && n < |states|
    requires states[n].stop.SExited? || states[n].stop.SKillGroup? || states[n].stop.SKillTree?
    ensures i < n && Decides(states[i], events[i])
    ensures states[n].stop.SExited? ==> (KillSweep in states[n].past.log <==> states[i].flags.running)
    ensures !states[n].stop.SExited? ==> states[i].flags.running
    ensures !states[i].flags.running <==> Place(states[i].main) >= 8 || states[i].past.rootGone
  {
    hide Step, OneWinner, Callers, Order, Log, RunningFlag;
    StartIsInv(states[0]);
    RunKeepsInv(states, events, n - 1);
    assert Step(states[n - 1], events[n - 1]) == Some(states[n]);
    StopMovesOn(states[n - 1], events[n - 1]);
    if states[n].stop.SExited? { LogOfStop(states[n - 1], events[n - 1]); }
    if Decides(states[n - 1], events[n - 1]) {
      i := n - 1;
      NotRunningHasReason(states[i]);
    } else {
      i := RunningFlagDecides(states, events, n - 1);
    }
  }

  // ---- progress ----

  /** The thread that can step while the stop thread waits to be released. */
  lemma WinnerCanStep(s: State) returns (e: Event)
    requires Inv(s) && s.flags.invoked && !s.flags.shouldExecute
    ensures !IsExternal(e) && Step(s, e).Some?
  {
    hide Callers, Order, RunningFlag, Log, StopSolver, MainNext, TimerNext, HandlerNext, StopNext;
    var t := s.past.wins[0];
    assert s.past.wins == [t] && WinnerIsNoted(s, t);
    match t
    case MainThread => e := MainStep;
    case TimerThread => e := TimerStep(true);
    case HandlerThread => e := HandlerStep;
    case StopThread => e := StopStep(true);
  }

  /** Once the child has exited, some thread can step until main is done, unless main waits for the time stamper
      thread. */
  lemma NoDeadlock(s: State) returns (e: Event)
    requires Inv(s) && !s.world.alive && !s.main.MDone? && !(s.main.MJoinStamper? && s.world.outputOpen)
    ensures !IsExternal(e) && Step(s, e).Some?
  {
    hide OneWinner, RunningFlag, Log;
    if !s.calls.main.Outside? || !(s.main.MJoinTimer? || s.main.MJoinStop?) {
      e := MainStep;
    } else if !s.timer.TExited? {
      e := TimerStep(true);
    } else if s.stop.SExited? {
      e := MainStep;
    } else if s.flags.shouldExecute {
      e := StopStep(true);
    } else {
      e := WinnerCanStep(s);
    }
  }

  ghost predicate AtRest(s: State) {
    forall e :: !IsExternal(e) ==> Step(s, e).None?
  }

  /** Once a shutdown is requested, the threads come to rest in three ways only: main is done, or it waits for a child
      that will not die, or it waits for the time stamper thread because some process keeps the solver's output open.
      In all three the stop thread has run to its end and SIGTERM has been sent. A child that main waits for was sent
      SIGKILL too if and only if the timer thread has not found the root process gone. */
  lemma RestAfterShutdown(s: State)
    requires Inv(s) && s.flags.shutdown && AtRest(s)
    ensures s.main.MDone? <==> !s.world.alive && !s.world.outputOpen
    ensures s.main.MWait4? <==> s.world.alive
    ensures s.main.MJoinStamper? <==> !s.world.alive && s.world.outputOpen
    ensures s.timer.TExited? && s.stop.SExited?
    ensures TermSweep in s.past.log
    ensures s.main.MWait4? ==> (KillSweep in s.past.log <==> !s.past.rootGone)
    ensures FinalKill in s.past.log <==> s.main.MDone?
  {
    hide OneWinner;
    assert Step(s, MainStep).None? && Step(s, TimerStep(true)).None?;
    assert Step(s, HandlerStep).None? && Step(s, StopStep(true)).None?;
    if !s.flags.shouldExecute {
      assert s.flags.invoked;
      var e := WinnerCanStep(s);
      assert false;
    }
  }

  /** As long as the output stays open, main does not get past the join of the time stamper thread,
      and its SIGKILL to the group is not sent. */
  lemma MainWaitsForOutput(states: seq<State>, events: seq<Event>, n: nat)
    requires Run(states, events) && IsStart(states[0]) && n < |states|
    requires states[n].world.outputOpen
    ensures Place(states[n].main) <= 9 && FinalKill !in states[n].past.log
  {
    hide Step;
    StartIsInv(states[0]);
    RunKeepsInv(states, events, n);
  }

  // ---- termination ----

  function CallWork(c: Call): nat {
    match c
    case Outside => 0
    case CompareAndSet => 4
    case RequestShutdown => 3
    case Release => 2
  }

  function LimitWork(limit: Limit): nat {
    match limit
    case CpuTime => 22
    case WallClock => 17
    case VSize => 12
  }

  function TimerWork(t: Timer): nat {
    match t
    case TExited => 0
    case TAnnounce => 2
    case TClearRunning => 3
    case TTestShutdown => 4
    case TSleep => 5
    case TNotCreated => 6
    case TTestRunning => 6
    case TDisplay => 7
    case TLimit(limit) => LimitWork(limit)
    case TRead => 23
  }

  function HandlerWork(h: Handler): nat {
    match h
    case HExited => 0
    case HRequestShutdown => 5
    case HSigwait => 6
  }

  function StopWork(p: Stop): nat {
    match p
    case SExited => 0
    case SKillGroup => 1
    case SKillTree => 2
    case STestAgain => 3
    case SSleep => 4
    case STestRunning => 5
    case STerm => 6
    case SDisplay => 7
    case SLimit(limit) => LimitWork(limit)
    case SRead => 23
    case SWaitTimer => 24
    case STestTimer => 25
    case SWaitExecute => 26
    case STestExecute => 27
    case SNotCreated => 27
  }

  /** An upper bound for the steps still to come once a shutdown is requested. */
  function Work(s: State): nat {
    5 * (13 - Place(s.main)) + TimerWork(s.timer) + HandlerWork(s.handler) + StopWork(s.stop)
    + CallWork(s.calls.main) + CallWork(s.calls.timer) + CallWork(s.calls.handler) + CallWork(s.calls.stop)
    + (if s.world.alive then 1 else 0) + (if s.world.outputOpen then 1 else 0)
  }

  lemma WorkIsBounded(s: State)
    ensures Work(s) <= 140
  {}

  lemma CallStepWorks(s: State, t: Thread)
    requires !s.calls.Of(t).Outside?
    ensures var s' := StopSolver(s, t);
            && s'.main == s.main && s'.timer == s.timer && s'.handler == s.handler && s'.world.alive == s.world.alive
            && s'.world.outputOpen == s.world.outputOpen && s'.calls == s.calls.With(t, s'.calls.Of(t))
                && (s.flags.shutdown ==> s'.flags.shutdown)
            && StopWork(s'.stop) + CallWork(s'.calls.Of(t)) < StopWork(s.stop) + CallWork(s.calls.Of(t))
  {
    match s.calls.Of(t)
    case CompareAndSet =>
    case RequestShutdown =>
    case Release =>
  }

  lemma CallsWork(s: State, t: Thread)
    requires !s.calls.Of(t).Outside?
    ensures Work(StopSolver(s, t)) < Work(s) && (s.flags.shutdown ==> StopSolver(s, t).flags.shutdown)
  {
    hide Place, TimerWork, HandlerWork, StopWork, StopSolver, CallWork;
    CallStepWorks(s, t);
  }

  lemma MainWorks(s: State)
    requires s.calls.main.Outside? && MainNext(s).Some? && Order(s)
    ensures Work(MainNext(s).value) < Work(s) && (s.flags.shutdown ==> MainNext(s).value.flags.shutdown)
  {
    hide HandlerWork, LimitWork;
    match s.main
    case MCreateTimer =>
    case MCreateStop =>
    case MWait4 =>
    case _ =>
  }

  lemma TimerWorks(s: State, choice: bool)
    requires s.calls.timer.Outside? && TimerNext(s, choice).Some? && s.flags.shutdown
    ensures Work(TimerNext(s, choice).value) < Work(s) && TimerNext(s, choice).value.flags.shutdown
  {
    hide Place, HandlerWork;
    match s.timer
    case TTestRunning =>
    case TSleep =>
    case TTestShutdown =>
    case TRead =>
    case TLimit(_) =>
    case TClearRunning =>
    case TDisplay =>
    case TAnnounce =>
  }

  lemma StopStepWorks(s: State, choice: bool)
    requires s.calls.stop.Outside? && StopNext(s, choice).Some?
    ensures var s' := StopNext(s, choice).value;
            && s'.flags == s.flags && s'.main == s.main && s'.timer == s.timer && s'.handler == s.handler
                && s'.world.alive == s.world.alive
            && s'.world.outputOpen == s.world.outputOpen && s'.calls == s.calls.(stop := s'.calls.stop)
            && StopWork(s'.stop) + CallWork(s'.calls.stop) < StopWork(s.stop)
  {
    match s.stop
    case STestExecute =>
    case STestTimer =>
    case SRead =>
    case SLimit(_) =>
    case SDisplay =>
    case STerm =>
    case STestRunning =>
    case SSleep =>
    case STestAgain =>
    case SKillTree =>
    case SKillGroup =>
  }

  lemma StopWorks(s: State, choice: bool)
    requires s.calls.stop.Outside? && StopNext(s, choice).Some?
    ensures Work(StopNext(s, choice).value) < Work(s) && (s.flags.shutdown ==> StopNext(s, choice).value.flags.shutdown)
  {
    hide Place, HandlerWork, TimerWork, StopNext, StopWork, CallWork;
    StopStepWorks(s, choice);
  }

  lemma OthersWork(s: State, e: Event)
    requires Step(s, e).Some? && (e.HandlerStep? || IsExternal(e))
    requires e.HandlerStep? ==> s.calls.handler.Outside?
    ensures s.flags.shutdown ==> Step(s, e).value.flags.shutdown
    ensures if IsInterrupt(e) then Work(Step(s, e).value) <= Work(s) + 1 else Work(Step(s, e).value) < Work(s)
  {
    match e
    case HandlerStep =>
    case SpuriousWakeup =>
    case _ =>
  }

  lemma StepsWork(s: State, e: Event)
    requires Inv(s) && s.flags.shutdown && Step(s, e).Some?
    ensures Step(s, e).value.flags.shutdown
    ensures if IsInterrupt(e) then Work(Step(s, e).value) <= Work(s) + 1 else Work(Step(s, e).value) < Work(s)
  {
    hide Work, StopSolver, MainNext, TimerNext, StopNext, HandlerNext, EnvironmentNext, OneWinner, Callers, Order,
        RunningFlag, Log;
    if !IsExternal(e) && !s.calls.Of(Caller(e)).Outside? {
      CallsWork(s, Caller(e));
    } else {
      match e
      case MainStep => MainWorks(s);
      case TimerStep(choice) => TimerWorks(s, choice);
      case StopStep(choice) => StopWorks(s, choice);
      case _ => OthersWork(s, e);
    }
  }

  function Interrupts(events: seq<Event>): nat {
    if events == [] then 0 else Interrupts(events[..|events| - 1]) + if IsInterrupt(events[|events| - 1]) then 1 else 0
  }

  /** Once a shutdown is requested, every step that is no interrupt uses up work, and an interrupt adds at most one. */
  lemma {:induction false} ShutdownEnds(states: seq<State>, events: seq<Event>)
    requires Run(states, events) && Inv(states[0]) && states[0].flags.shutdown
    ensures |events| - Interrupts(events) + Work(states[|events|]) <= Work(states[0]) + Interrupts(events)
    ensures states[|events|].flags.shutdown && Inv(states[|events|])
    ensures |events| <= 140 + 2 * Interrupts(events)
  {
    hide Step, Inv, Work;
    var n := |events|;
    WorkIsBounded(states[0]);
    if n > 0 {
      ShutdownEnds(states[..n], events[..n - 1]);
      assert Step(states[n - 1], events[n - 1]) == Some(states[n]);
      StepKeepsInv(states[n - 1], events[n - 1]);
      StepsWork(states[n - 1], events[n - 1]);
    }
  }

  lemma DeadStaysDead(s: State, e: Event)
    requires Step(s, e).Some?
    ensures !s.world.alive ==> !Step(s, e).value.world.alive
    ensures !s.world.outputOpen ==> !Step(s, e).value.world.outputOpen
  {}

  /** From every state with the child gone, its output closed and a shutdown requested, there is a run without
      interrupts to the end. */
  lemma {:induction false} CanFinish(s: State) returns (states: seq<State>, events: seq<Event>)
    requires Inv(s) && !s.world.alive && !s.world.outputOpen && s.flags.shutdown
    ensures Run(states, events) && states[0] == s && states[|events|].main.MDone? && Interrupts(events) == 0
    decreases Work(s)
  {
    hide Step, Inv, Work;
    if s.main.MDone? {
      states, events := [s], [];
    } else {
      var e := NoDeadlock(s);
      StepKeepsInv(s, e);
      StepsWork(s, e);
      DeadStaysDead(s, e);
      var laterStates, laterEvents := CanFinish(Step(s, e).value);
      states, events := [s] + laterStates, [e] + laterEvents;
      NoInterruptFirst(e, laterEvents);
    }
  }

  lemma {:induction false} NoInterruptFirst(e: Event, events: seq<Event>)
    requires !IsInterrupt(e)
    ensures Interrupts([e] + events) == Interrupts(events)
  {
    if events == [] {
      assert [e] + events == [e];
    } else {
      NoInterruptFirst(e, events[..|events| - 1]);
      assert ([e] + events)[..|events|] == [e] + events[..|events| - 1];
    }
  }

  /** A run that nothing but interrupts can prolong has reached the end of main with all signals sent. */
  lemma StuckRunIsComplete(states: seq<State>, events: seq<Event>)
    requires Run(states, events) && IsStart(states[0])
    requires forall e :: !IsInterrupt(e) ==> Step(states[|events|], e).None?
    ensures states[|events|].main.MDone?
    ensures var log := states[|events|].past.log;
            log == [TermSweep, FinalKill] || log == [TermSweep, KillSweep, KillGroup, FinalKill]
  {
    hide Inv;
    StartIsInv(states[0]);
    RunKeepsInv(states, events, |events|);
    assert Step(states[|events|], ChildExits).None? && Step(states[|events|], MainStep).None?;
    assert Step(states[|events|], OutputCloses).None?;
    if !states[|events|].main.MDone? {
      var e := NoDeadlock(states[|events|]);
      assert false;
    }
    CompletedRun(states, events);
  }

  /** Uninterrupted, the steps of stopSolver make of the flags what the sequential method does. */
  lemma UninterruptedCall(s: State, t: Thread)
    requires Inv(s) && s.calls.Of(t).CompareAndSet?
    ensures var first := StopSolver(s, t);
            if s.flags.invoked then first.calls.Of(t).Outside? && first.flags == s.flags.Stopped()
            else var last := StopSolver(StopSolver(first, t), t);
                 last.calls.Of(t).Outside? && last.flags == s.flags.Stopped()
  {}

  // ---- runs that come to rest before the end ----

  lemma Extend(states: seq<State>, events: seq<Event>, e: Event) returns (states': seq<State>, events': seq<Event>)
    requires Run(states, events) && Step(states[|events|], e).Some?
    ensures Run(states', events') && states'[0] == states[0]
    ensures states'[|events'|] == Step(states[|events|], e).value
  {
    hide Step;
    states', events' := states + [Step(states[|events|], e).value], events + [e];
  }

  /** Main starts the solver and both threads. */
  lemma ThreadsAreCreated(stamping: bool) returns (states: seq<State>, events: seq<Event>)
    ensures Run(states, events) && states[0] == Start(stamping)
    ensures states[|events|] == Start(stamping).(main := MWait4, timer := TTestRunning, stop := STestExecute,
                                                 flags := Flags(true, false, false, false, false))
  {
    states, events := [Start(stamping)], [];
    states, events := Extend(states, events, MainStep);
    states, events := Extend(states, events, MainStep);
    states, events := Extend(states, events, MainStep);
    states, events := Extend(states, events, MainStep);
    states, events := Extend(states, events, MainStep);
  }

  /** The timer thread samples, cannot read the root process and stops. */
  lemma TimerFindsRootGone(stamping: bool) returns (states: seq<State>, events: seq<Event>)
    ensures Run(states, events) && states[0] == Start(stamping)
    ensures states[|events|] == Start(stamping).(main := MWait4, timer := TExited, stop := STestExecute,
                                                 past := Past(true, [], []),
                                                 flags := Flags(false, false, false, false, true))
  {
    states, events := ThreadsAreCreated(stamping);
    states, events := Extend(states, events, TimerStep(true));
    states, events := Extend(states, events, TimerStep(true));
    states, events := Extend(states, events, TimerStep(true));
    states, events := Extend(states, events, TimerStep(true));
    states, events := Extend(states, events, TimerStep(true));
    states, events := Extend(states, events, TimerStep(true));
  }

  /** Then a signal makes the handler thread stop the solver. */
  lemma HandlerStopsSolver(stamping: bool) returns (states: seq<State>, events: seq<Event>)
    ensures Run(states, events) && states[0] == Start(stamping)
    ensures states[|events|] == Start(stamping).(main := MWait4, timer := TExited, handler := HExited,
                                                 stop := STestExecute, past := Past(true, [HandlerThread], []),
                                                 flags := Flags(false, true, true, true, true))
  {
    states, events := TimerFindsRootGone(stamping);
    states, events := Extend(states, events, TermSignal);
    states, events := Extend(states, events, HandlerStep);
    states, events := Extend(states, events, HandlerStep);
    states, events := Extend(states, events, HandlerStep);
    states, events := Extend(states, events, HandlerStep);
  }

  /** The stop thread sends SIGTERM and exits: a child that is still alive then is never sent SIGKILL, and main waits
      for it for as long as it lives. A child that has not been waited for keeps its entry in /proc, so the timer
      thread takes it for gone only if reading the entry fails, as it does without a free file descriptor. */
  lemma KillIsSkippedHere(stamping: bool) returns (states: seq<State>, events: seq<Event>)
    ensures Run(states, events) && states[0] == Start(stamping)
    ensures var s := states[|events|];
            s.main.MWait4? && s.world.alive && s.stop.SExited? && s.past.log == [TermSweep] && AtRest(s)
  {
    states, events := HandlerStopsSolver(stamping);
    states, events := StopSendsTerm(states, events);
  }

  /** The stop thread, released and with the running flag down, sends SIGTERM and nothing else. */
  lemma StopSendsTerm(states: seq<State>, events: seq<Event>) returns (states': seq<State>, events': seq<Event>)
    requires Run(states, events)
    requires var s := states[|events|];
             && s.stop.STestExecute? && s.calls.stop.Outside?
             && s.flags.shouldExecute && s.flags.timerStopped && !s.flags.running
    ensures Run(states', events') && states'[0] == states[0]
    ensures var s := states[|events|];
            states'[|events'|] == s.(stop := SExited, past := s.past.(log := s.past.log + [TermSweep]))
  {
    states', events' := Extend(states, events, StopStep(true));
    states', events' := Extend(states', events', StopStep(true));
    states', events' := Extend(states', events', StopStep(true));
    states', events' := Extend(states', events', StopStep(true));
    states', events' := Extend(states', events', StopStep(true));
    states', events' := Extend(states', events', StopStep(true));
    states', events' := Extend(states', events', StopStep(true));
  }

  /** The child exits; main stops the solver and lowers the running flag; the timer thread stops. */
  lemma MainStopsSolver() returns (states: seq<State>, events: seq<Event>)
    ensures Run(states, events) && states[0] == Start(true)
    ensures states[|events|] == Start(true).(main := MJoinTimer, timer := TExited, stop := STestExecute,
                                             world := World(false, true), past := Past(false, [MainThread], []),
                                             flags := Flags(false, true, true, true, true))
  {
    states, events := ThreadsAreCreated(true);
    states, events := Extend(states, events, ChildExits);
    states, events := Extend(states, events, MainStep);
    states, events := Extend(states, events, MainStep);
    states, events := Extend(states, events, MainStep);
    states, events := Extend(states, events, MainStep);
    states, events := Extend(states, events, MainStep);
    states, events := Extend(states, events, MainStep);
    states, events := Extend(states, events, TimerStep(true));
    states, events := Extend(states, events, TimerStep(true));
  }

  /** With time stamping, a descendant that ignores SIGTERM and keeps the solver's output open stops main before its
      SIGKILL: the child has been waited for, the stop thread has sent SIGTERM only, and no thread can step until the
      output closes. */
  lemma OutputKeepsMainWaiting() returns (states: seq<State>, events: seq<Event>)
    ensures Run(states, events) && states[0] == Start(true)
    ensures var s := states[|events|];
            && s.main.MJoinStamper? && !s.world.alive && s.world.outputOpen && s.stop.SExited?
                && s.past.log == [TermSweep]
            && forall e :: !IsInterrupt(e) && !e.OutputCloses? ==> Step(s, e).None?
  {
    states, events := MainStopsSolver();
    states, events := StopSendsTerm(states, events);
    states, events := Extend(states, events, MainStep);
  }
}
